# ShawnCore verification

A Dafny model of the two crates of this repository that carry its hard guarantees, with proofs about
every run of the model. `dafny verify dfyconfig.toml` checks the whole project.

**The secure session (`shawncore-pq-crypto`).** `Sessions` gives each public call of the session manager as a
function of its state; `SessionManager` is the object with its fields updated in place, each method proved to
compute that function. `SessionRuns` proves what every sequence of calls keeps: the session invariant, clean or
fatal failures, forgeries that do not interfere, nonces that never repeat; `SessionAnswers` when each call succeeds.
`HonestRuns` are the runs in which every message arrives. `HandshakeAgreement` puts any number of
sessions in the hands of an attacker and proves agreement of the three-message handshake on every run;
`SecureChannel` carries it on to the packets of two sessions, in both directions, and
`AuthenticTraffic` to the packets of the whole attacker's world. `AuthHandshake`, `HybridKdf`, `Aead`,
`ReplayWindow` and `KeyChecksum` hold the byte-level parts. Cryptography is symbolic (`SymbolicCrypto`): a derived
byte is a term naming the primitive, its inputs and its position, so concatenations, length prefixes, key splits
and label prefixes are exactly the code's, while the primitives are injective by construction. HMAC pads its key
to a block, so statements are about HMAC key blocks and PRKs, not raw salts. The same crate's entropy accumulator
is in `EntropyPools` (one caller, and extraction as a stream), `EntropySystem` (any threads, any pools, two
gates and the queue), `EntropyCalls` (every call is answered) and `EntropyHistory` (what state and output say about
the past), and the buffer checks of its C boundary in `FfiRanges`.

**The lock-free primitives (`shawncore-rtos-sync`).** Each atomic load, store and compare-exchange is one step of
a thread with a program counter, under sequentially consistent interleaving; a weak compare-exchange may fail
spuriously. `DmaPool` and `DmaTokens` treat the tagged Treiber stack with its ownership words, `DmaCalls` what its
calls answer, `DmaLimits` what happens one step past either of its limits, `DmaWipe` the clearing loop,
`StaticDmaPools` the object used by one caller at a time. `WrappingQueue` is the ring with wrapping indices that
`SpscQueue` (with slot counters and peek) and `EntropySystem` share, `SpscCalls` what its calls answer; `RingBuffers`
is the object; `QueueInit` and `QueueInitCalls` are concurrent initialization. `Schedulers` is the bitmap scheduler and `SchedulerRuns` its runs.

Fields called history in a module's heading are recorded by the steps and read by none of them.

Two statements of the documentation are weaker in the code than a reader may take them. The handshake notes say a
salt mismatch is caught by the tags; salts that share their HMAC key block (for example the empty salt and one zero
byte) are not told apart: `HonestRuns.DifferingSaltsCanAgree` is such a run and
`HonestRuns.HonestRunCompletes` the exact condition. The scheduler documents that a tick returns zero if a
stack overflow is detected, which holds; the converse does not, and `SchedulerRuns.ZeroIff` says from the state before
the tick exactly when zero is returned, with three zeros that are no overflow beside it.

## Model

| member | source | states |
|---|---|---|
| `HandshakeAgreement.AgreementOnEveryRun` | shawncore-pq-crypto/src/session_manager.rs:619-923 | over every run of any length, any number of sessions and any attacker-chosen calls in which honest keys sign only inside these calls: every finalize that trusts an honest key is preceded in the log by an encapsulation with the same public keys, ciphertext, X25519 key, identities, app_info and PRK and mirrored keys, and every confirmation that trusts an honest key is preceded by such a finalize for the encapsulation of that very session |
| `HandshakeAgreement.AgreementIsInjective` | shawncore-pq-crypto/src/session_manager.rs:710-864 | with key-generation seeds never reused, no two finalizes of a run match the same encapsulation |
| `HandshakeAgreement.StepKeepsInv` | validation/formal/handshake_model.py:204-246 | one attacker move keeps agreement of all logged finalizes and confirmations, key agreement included, and every pending authentication traceable to the session's own encapsulation |
| `HandshakeAgreement.DigestDeterminesAll` | shawncore-pq-crypto/src/auth_handshake.rs:101-165 | the digest the encapsulating side signs determines every field of the handshake and the PRK |
| `HonestRuns.HonestRunCompletes` | shawncore-pq-crypto/src/session_manager.rs:126-923 | each message made from what the call before it returned, from any two earlier states: the run completes with mirrored keys and traffic enabled on both sides if and only if the two salts have the same HMAC key block; otherwise the finalize fails with KeyConfirmationFailed and wipes the session |
| `HonestRuns.OffersItsKeys` | shawncore-pq-crypto/src/session_manager.rs:126-160 | the public keys a key generation returns are those of the two secrets the session then holds |
| `HonestRuns.PlainRunJoinsIff` | shawncore-pq-crypto/src/session_manager.rs:126-279 | the unauthenticated handshake, run from the returned messages: both calls succeed and detect nothing, and the sides hold mirrored keys if and only if the salts have the same HMAC key block and the infos are equal; otherwise neither direction matches |
| `HonestRuns.PacketRoundTrip` | shawncore-pq-crypto/src/session_manager.rs:450-530 | a packet is returned if and only if the sender carries traffic, the buffer fits, the length is admissible and the counter is below its end; the returned packet opens to the plaintext under its aad and fails verification under any other, at any session with the matching receive key that accepts the nonce |
| `HonestRuns.HonestRunCarriesTraffic` | shawncore-pq-crypto/src/session_manager.rs:126-923 | after an honest run that completes, the first packet each side returns opens on the other side |
| `HonestRuns.FinalizeDecides` | shawncore-pq-crypto/src/session_manager.rs:710-864 | given an authentic message tagged under some PRK, with any contributory peer key, finalize installs keys exactly when this side derives that PRK, and otherwise wipes |
| `HonestRuns.PaddedSaltsCoincide` | shawncore-pq-crypto/src/hybrid_kdf.rs:98-130 | appending zero bytes to a salt within one HMAC block gives the same HMAC key block, hence the same PRK |
| `HonestRuns.DifferingSaltsCanAgree` | shawncore-pq-crypto/src/auth_handshake.rs:34-35 | counterexample to "a salt mismatch is caught by the tags": with the empty salt on one side and a single zero byte on the other, the three messages complete with mirrored keys |
| `HandshakeAgreement.PendingOrigin` | shawncore-pq-crypto/src/session_manager.rs:619-693 | only a successful authenticated encapsulation creates a pending authentication; every other call keeps it together with the keys it belongs to, or drops it |
| `AuthHandshake.Sha384` | shawncore-pq-crypto/src/auth_handshake.rs:86-94 | the update loop hashes the concatenation of the parts |
| `AuthHandshake.ComputeConfirmationTag` | shawncore-pq-crypto/src/auth_handshake.rs:171-184 | the 128-byte buffer holds label then digest, and the tag is the HMAC of exactly those bytes; a label that does not fit is InvalidLength |
| `AuthHandshake.BindingInjective` | shawncore-pq-crypto/src/auth_handshake.rs:110-130 | the binding determines both public keys, both fingerprints and app_info, for every app_info length the code admits |
| `AuthHandshake.TranscriptInjective` | shawncore-pq-crypto/src/auth_handshake.rs:135-146 | the transcript hash determines binding, ciphertext and the encapsulator's X25519 key |
| `AuthHandshake.IdentityInjective` | shawncore-pq-crypto/src/auth_handshake.rs:101-103 | equal fingerprints come from equal verifying keys |
| `AuthHandshake.EncapsulatorDigestInjective` | shawncore-pq-crypto/src/auth_handshake.rs:151-156 | the signed digest determines transcript and tag |
| `AuthHandshake.KeygenDigestInjective` | shawncore-pq-crypto/src/auth_handshake.rs:160-165 | the final digest determines the earlier digest and the tag |
| `AuthHandshake.ConfirmationTagInjective` | shawncore-pq-crypto/src/auth_handshake.rs:171-184 | a tag determines the 48-byte confirmation key and the digest it confirms |
| `AuthHandshake.LabelledPreimagesDisjoint` | shawncore-pq-crypto/src/auth_handshake.rs:80-84 | hash preimages under two different labels never coincide, whatever parts follow |
| `HybridKdf.DeriveHybridKey` | shawncore-pq-crypto/src/hybrid_kdf.rs:43-68 | the 128 session bytes expand from the PRK of salt and both secrets, and both secret buffers are zero afterwards |
| `HybridKdf.DeriveHybridKeyWithConfirmation` | shawncore-pq-crypto/src/hybrid_kdf.rs:98-130 | one PRK expands to 128 session bytes, the same as without confirmation, and 96 bytes under any second info; both secret buffers are zero afterwards |
| `HybridKdf.InfosDiffer` | shawncore-pq-crypto/src/hybrid_kdf.rs:71-84 | no confirmation info equals any session info built on a transcript of the same length, of this or another session |
| `HybridKdf.ConfirmationKeyDeterminesSession` | shawncore-pq-crypto/src/hybrid_kdf.rs:98-130 | sharing either confirmation key means sharing the PRK and the info, hence the session keys |
| `HybridKdf.ExtractInjective` | shawncore-pq-crypto/src/hybrid_kdf.rs:43-68 | equal PRKs come from equal secrets and salts with the same HMAC key block |
| `HybridKdf.DirectionsDiffer` | shawncore-pq-crypto/src/session_manager.rs:794-864 | within one session the two directions share neither an encryption key nor a MAC key |
| `HybridKdf.KeysShareNoByte` | shawncore-pq-crypto/src/session_manager.rs:355-376 | the encryption and MAC keys of the two directions use each of the 128 derived bytes once |
| `SessionRuns.InvariantOnEveryRun` | shawncore-pq-crypto/src/session_manager.rs:126-923 | after every sequence of public calls on a fresh manager: established iff both keys are present, with matching checksums; pending secrets come as a pair and never beside an established session; a pending authentication means established with no traffic |
| `SessionRuns.RunKeepsInv` | shawncore-pq-crypto/src/session_manager.rs:126-923 | the session invariant is kept by every sequence of public calls from any state that has it |
| `SessionRuns.FailingCallIsCleanOrFatal` | shawncore-pq-crypto/src/session_manager.rs:174-923 | every failing call leaves the session unchanged before authentication is passed and equal to a new one after it, with the exact case split |
| `SessionRuns.UnauthenticatedIffUnchanged` | shawncore-pq-crypto/src/session_manager.rs:723-748 | a finalize or confirm leaves the session as it was if and only if the message is not authenticated |
| `SessionRuns.ForgeriesDoNotInterfere` | shawncore-pq-crypto/src/session_manager.rs:880-905 | any finite number of badly signed or wrong-identity messages before a genuine call leaves its result, outputs and final state identical |
| `SessionRuns.CounterDiscipline` | shawncore-pq-crypto/src/session_manager.rs:369-404 | every key installation starts counter and window at zero; every other call keeps the key, issues at most the next nonce and consumes none when it fails |
| `SessionRuns.NoncesNeverRepeat` | shawncore-pq-crypto/src/session_manager.rs:393-501 | within one key installation the nonces issued by any mix of encrypt_packet and get_next_tx_nonce strictly increase and never wrap |
| `SessionRuns.KeyCorruptionDetected` | shawncore-pq-crypto/src/session_manager.rs:533-550 | changing the value of any one byte of either installed key makes the integrity check fail |
| `SessionAnswers.AnswersOnEveryRun` | shawncore-pq-crypto/src/session_manager.rs:126-923 | after every sequence of calls on a fresh manager each of the eleven state-changing calls succeeds exactly under its stated condition, and otherwise reports exactly the stated error |
| `KeyChecksum.Compute` | shawncore-pq-crypto/src/session_manager.rs:948-957 | the rotate-xor loop computes the checksum as a left fold over the key bytes |
| `KeyChecksum.SingleByteCorruptionDetected` | shawncore-pq-crypto/src/session_manager.rs:948-957 | for every key, position and wrong byte value, the checksum changes |
| `ReplayWindow.ReplayWindowLaw` | shawncore-pq-crypto/src/session_manager.rs:407-447 | after any run of commits from a fresh session the check accepts exactly the zero-tailed nonces whose sequence was never committed and is not 64 or more behind any committed one |
| `ReplayWindow.CommitRepresents` | shawncore-pq-crypto/src/session_manager.rs:428-447 | a commit of any sequence (ahead by any shift, behind inside the window, or too old) turns the representation of a set of sequences into that of the set with it added |
| `ReplayWindow.CommitAllRepresents` | shawncore-pq-crypto/src/session_manager.rs:428-447 | over every run of commits the pair (rx_counter, rx_window) represents exactly the set of committed sequences |
| `ReplayWindow.AcceptsExactlyUnseen` | shawncore-pq-crypto/src/session_manager.rs:407-422 | on any represented history the check decides membership in the unseen set, both directions, up to 2^64 - 1 |
| `ReplayWindow.NonceRoundTrip` | shawncore-pq-crypto/src/session_manager.rs:393-404 | the 12-byte nonce carries the counter and decodes back to it |
| `ReplayWindow.NonceDetermined` | shawncore-pq-crypto/src/session_manager.rs:407-422 | a zero-tailed nonce is determined by its sequence |
| `SessionManagement.SessionManager.constructor` | shawncore-pq-crypto/src/session_manager.rs:105-119 | a new manager holds no key, no secret, no pending authentication and zero counters |
| `SessionManagement.SessionManager.ZeroizeSession` | shawncore-pq-crypto/src/session_manager.rs:564-587 | the wiped session equals a new one |
| `SessionManagement.SessionManager.InstallKeys` | shawncore-pq-crypto/src/session_manager.rs:369-376 | installing keys computes both checksums and restarts counter and window |
| `SessionManagement.SessionManager.InitiateHandshake` | shawncore-pq-crypto/src/session_manager.rs:126-160 | degenerate entropy is refused without change; otherwise the old session is replaced by the pending pair and the matching public keys are returned |
| `SessionManagement.SessionManager.FinalizeHandshake` | shawncore-pq-crypto/src/session_manager.rs:174-247 | the unauthenticated finalize: missing secrets leave the state alone, a non-contributory peer key wipes it, success installs the key-generator's split |
| `SessionManagement.SessionManager.EncapsulateInner` | shawncore-pq-crypto/src/session_manager.rs:285-386 | a failure leaves the session alone; success installs the encapsulator's split of the derived bytes and returns the confirmation material exactly when asked |
| `SessionManagement.SessionManager.EncapsulateForPeer` | shawncore-pq-crypto/src/session_manager.rs:258-279 | as the inner encapsulation, returning ciphertext and public key |
| `SessionManagement.SessionManager.EncapsulateAuthenticated` | shawncore-pq-crypto/src/session_manager.rs:619-693 | the session is installed but pending, with the reply signed over transcript and tag |
| `SessionManagement.SessionManager.FinalizeAuthenticated` | shawncore-pq-crypto/src/session_manager.rs:710-789 | nothing is consumed before the signature verifies; everything after is final |
| `SessionManagement.SessionManager.CompleteAuthenticatedFinalize` | shawncore-pq-crypto/src/session_manager.rs:794-864 | reads the pending handshake and changes nothing: InvalidState without one, the error of a non-contributory key, KeyConfirmationFailed on a wrong tag, otherwise the proof and the keys its caller installs |
| `SessionManagement.SessionManager.ConfirmPeer` | shawncore-pq-crypto/src/session_manager.rs:874-923 | identity and signature are checked before anything changes; a wrong tag then wipes; success only drops the pending mark |
| `SessionManagement.SessionManager.GetNextTxNonce` | shawncore-pq-crypto/src/session_manager.rs:393-404 | issues the current counter and moves it on, never past 2^64 - 1 |
| `SessionManagement.SessionManager.CheckRxNonce` | shawncore-pq-crypto/src/session_manager.rs:407-422 | accepts exactly what the window predicate accepts, changing nothing |
| `SessionManagement.SessionManager.CommitRxNonce` | shawncore-pq-crypto/src/session_manager.rs:428-447 | the new window is the committed one for any offset or shift |
| `SessionManagement.SessionManager.EncryptPacket` | shawncore-pq-crypto/src/session_manager.rs:450-501 | a packet is produced under the issued nonce, or nothing changes and no nonce is consumed |
| `SessionManagement.SessionManager.DecryptPacket` | shawncore-pq-crypto/src/session_manager.rs:504-530 | the window moves only after the tag has verified; every failure leaves the session unchanged |
| `SessionManagement.SessionManager.VerifyKeyIntegrity` | shawncore-pq-crypto/src/session_manager.rs:533-550 | true exactly when both keys are installed and match their stored checksums |
| `Aead.MacInputInjective` | shawncore-pq-crypto/src/aead_wrapper.rs:117-121 | the framed MAC input determines nonce, associated data and ciphertext |
| `Aead.OpenInvertsSeal` | shawncore-pq-crypto/src/aead_wrapper.rs:87-195 | opening returns the plaintext exactly on the sealed nonce, aad and ciphertext, and refuses every other combination under that tag |
| `Aead.KeystreamInvolution` | shawncore-pq-crypto/src/aead_wrapper.rs:145-195 | xoring the keystream twice gives the data back |
| `Aead.Encrypt` | shawncore-pq-crypto/src/aead_wrapper.rs:87-131 | fills the ciphertext buffer and returns its tag, or reports InvalidLength and writes nothing |
| `Aead.Decrypt` | shawncore-pq-crypto/src/aead_wrapper.rs:145-195 | verifies before decrypting: plaintext on success, an all-zero buffer on a bad tag, an untouched buffer on a bad length |
| `SecureChannel.HandshakeOpensChannel` | shawncore-pq-crypto/src/session_manager.rs:710-923 | a finalize and the encapsulation it matches start a channel whose two directions are keyed alike and apart |
| `SecureChannel.ChannelTheorem` | shawncore-pq-crypto/src/session_manager.rs:450-530 | after a matched handshake, for every interleaving of sends and of dropped, duplicated, reordered, reflected or altered deliveries, what each end accepted is a duplicate-free selection of the (aad, plaintext) pairs the other end sent |
| `SecureChannel.DeliveryDecides` | shawncore-pq-crypto/src/session_manager.rs:504-530 | a delivery either changes nothing or accepts, with its own plaintext, a packet the peer sent under exactly that nonce and aad |
| `SecureChannel.GenuineDelivery` | shawncore-pq-crypto/src/session_manager.rs:504-530 | a packet as encrypt_packet returned it is accepted, with the plaintext it was made from, if and only if it is new and at most 63 behind the newest accepted; under another aad or with another ciphertext it is refused |
| `SecureChannel.GenuineDeliveryOnEveryRun` | shawncore-pq-crypto/src/session_manager.rs:407-530 | the same decision at every point of every run that starts from a matched handshake |
| `SecureChannel.SendingOnEveryRun` | shawncore-pq-crypto/src/session_manager.rs:450-501 | at every point of every run after a matched handshake a send succeeds if and only if the buffer fits an admissible length and the counter is below its end; the packet goes out under the counter, which moves on by one, and nothing else changes |
| `AuthenticTraffic.AcceptedTrafficIsAuthentic` | shawncore-pq-crypto/src/session_manager.rs:450-923 | packets and handshakes of any number of sessions in the attacker's hands, sessions re-keyed at will: whatever a session accepts after finalizing with, or being confirmed by, an honest peer was sent before, with that sequence, aad and plaintext, by the session of the event its own log entry matches, and no key installation accepts a sequence twice |
| `AuthenticTraffic.StepKeepsInv` | shawncore-pq-crypto/src/session_manager.rs:126-923 | one attacker move, of any call, keeps all of it: every keyed session holds its last installation, every logged handshake event has its installation, every window represents what it was told, every accepted packet is authentic |
| `AuthenticTraffic.SameKeySameSecret` | shawncore-pq-crypto/src/session_manager.rs:355-376 | two key installations, plain or authenticated, that send under one encryption key or one MAC key have one role and were derived from one secret |
| `AuthenticTraffic.NoNonceRepeatsUnderAKey` | shawncore-pq-crypto/src/aead_wrapper.rs:80-86 | on every run, over all sessions and re-keyings: no two transmit nonces, of packets or handed to the host, coincide under one encryption key or one MAC key |
| `AuthenticTraffic.NoPadIsReused` | shawncore-pq-crypto/src/aead_wrapper.rs:87-131 | on every run each byte of a sent ciphertext is its plaintext byte under a keystream byte of that installation key, nonce and position, and no two bytes of any packets share one |
| `AuthenticTraffic.ConfirmationsAreInjective` | shawncore-pq-crypto/src/session_manager.rs:874-923 | on every run no two confirmations rest on the same finalize |
| `AuthenticTraffic.AcceptIsAuthentic` | shawncore-pq-crypto/src/session_manager.rs:504-530 | a tag that verifies for a trusting session and was made by some session's send was made by the peer's, for exactly this nonce, aad and plaintext |
| `DmaPool.PackRoundTrip` | shawncore-rtos-sync/src/static_dma_pool.rs:282-288 | unpacking a packed head gives index and tag back |
| `DmaPool.CasSawNoUpdate` | shawncore-rtos-sync/src/static_dma_pool.rs:155-171 | a popper's successful compare-exchange within 2^32 head updates of its load saw no update at all, so its successor is still right |
| `DmaPool.StepKeepsInv` | shawncore-rtos-sync/src/static_dma_pool.rs:149-279 | every atomic step of any thread, spurious failures included, keeps the free list acyclic and every slot in exactly one of: listed, held by one thread, owned |
| `DmaTokens.RunKeepsPool` | shawncore-rtos-sync/src/static_dma_pool.rs:149-279 | every run within the tag limit, however many allocations it makes, keeps the list, the placement of slots and zeroed free memory |
| `DmaTokens.SlotsArePartitioned` | shawncore-rtos-sync/src/static_dma_pool.rs:149-279 | on every run within the tag limit alone: the links form the list, listed, held and allocated slots partition 0..N, and no two threads hold one slot |
| `DmaTokens.ClaimsNeverFail` | shawncore-rtos-sync/src/static_dma_pool.rs:168-196 | on every run within the tag limit alone: the claim compare-exchange of a popped slot succeeds, and a slot handed out again is all zero |
| `DmaTokens.TokensAreUsedOnce` | shawncore-rtos-sync/src/static_dma_pool.rs:168-230 | on every run within the tag limit and the documented 2^63 allocations of a slot, the wrapping one included, no (index, generation) is issued twice or freed twice, and nothing is freed that was not issued |
| `DmaTokens.FreeSucceedsIffLive` | shawncore-rtos-sync/src/static_dma_pool.rs:211-230 | at every point of every run within those limits the release succeeds exactly on a token issued and not yet freed; any other token gets DoubleFree and changes no word, link or byte |
| `DmaTokens.StepKeepsMem` | shawncore-rtos-sync/src/static_dma_pool.rs:201-279 | every step keeps listed, popped and wiped slots zero since their last owner |
| `DmaCalls.AnswersOnEveryRun` | shawncore-rtos-sync/src/static_dma_pool.rs:149-230 | on every run within both limits a step reports exactly: OutOfMemory from a popper that observed an empty head, the next token from a claim, a release or DoubleFree by whether the token is live, and the two immediate refusals of free |
| `DmaCalls.OutOfMemoryMeansEmpty` | shawncore-rtos-sync/src/static_dma_pool.rs:155-195 | on every run within the tag limit, when an allocation reports OutOfMemory the list was empty at some point of that same call, whatever races and spurious failures it met |
| `DmaCalls.AllocateCompletes` | shawncore-rtos-sync/src/static_dma_pool.rs:149-198 | from every point of every run within the tag limit an allocation left alone ends within six of its steps with the slot that is then the head and its next generation; it reports OutOfMemory only if it had seen an empty head or the list is empty |
| `DmaCalls.AllocateTakesHead` | shawncore-rtos-sync/src/static_dma_pool.rs:149-198 | a whole undisturbed allocation takes the head of the list; it reports OutOfMemory if and only if the list is empty |
| `DmaCalls.FreeAnswers` | shawncore-rtos-sync/src/static_dma_pool.rs:201-230 | a free of any index and generation, with anything the other threads do before its exchange: the two refusals at once, otherwise success exactly if that very token is live at the exchange |
| `DmaCalls.FreeCompletes` | shawncore-rtos-sync/src/static_dma_pool.rs:232-279 | from every point of every run within the tag limit a free that has taken its token back and is left alone ends within four of its steps, with its slot wiped and at the head of the list |
| `DmaCalls.FreePutsHead` | shawncore-rtos-sync/src/static_dma_pool.rs:201-279 | a whole undisturbed free of a live token wipes exactly that slot and puts it at the head of the list within five steps |
| `DmaCalls.OwnedMemoryIsTheOwners` | shawncore-rtos-sync/src/static_dma_pool.rs:201-262 | at every point of every run the bytes of an allocated slot change exactly by a write through its live token |
| `DmaLimits.TagBoundIsTight` | shawncore-rtos-sync/src/static_dma_pool.rs:9-12 | the tag limit is exact: there is a run of a fresh three-slot pool, inside every lifetime limit up to its last step, in which a pop exactly 2^32 head updates after its load makes a slot that a caller owns the head of a broken list |
| `DmaLimits.GenerationBoundIsTight` | shawncore-rtos-sync/src/static_dma_pool.rs:12-16 | the generation limit is exact: there is a run of a fresh three-slot pool, inside both limits up to its last step, in which the claim of a slot allocated exactly 2^63 times issues a token that was issued before |
| `DmaLimits.Rounds` | shawncore-rtos-sync/src/static_dma_pool.rs:149-279 | any number of allocate/free rounds of one slot moves only its generation and the head tag, by two updates a round, and leaves another thread's stale load as it was |
| `DmaTokens.BuildFreeList` | shawncore-rtos-sync/src/static_dma_pool.rs:132-140 | the initialization loop links the slots in order and clears every ownership word |
| `DmaWipe.Wipe` | shawncore-rtos-sync/src/static_dma_pool.rs:232-261 | the byte/word/byte loop clears exactly the slot's bytes, its stores tile the slot, word stores are aligned and in bounds, and at most 14 are single bytes |
| `DmaWipe.AlignedPrefix` | shawncore-rtos-sync/src/static_dma_pool.rs:238-246 | the prefix loop stops at the first aligned address or at the end |
| `StaticDmaPools.StaticDmaPool.constructor` | shawncore-rtos-sync/src/static_dma_pool.rs:67-84 | a new pool is not ready |
| `StaticDmaPools.Refusal` | shawncore-rtos-sync/src/static_dma_pool.rs:101-122 | the arguments are accepted exactly when the element size and pointer are non-zero, the region fits, does not wrap and is aligned, and the bitmap words match |
| `StaticDmaPools.StaticDmaPool.Init` | shawncore-rtos-sync/src/static_dma_pool.rs:96-146 | memory that fits makes the pool ready once, with every slot listed in order and every word zero; each refusal has its error and changes nothing |
| `StaticDmaPools.StaticDmaPool.Allocate` | shawncore-rtos-sync/src/static_dma_pool.rs:149-198 | in place: NotInitialized exactly when not ready, OutOfMemory exactly when ready with an empty list, neither changing anything; otherwise the head slot leaves the list and its word carries the next generation |
| `StaticDmaPools.StaticDmaPool.Free` | shawncore-rtos-sync/src/static_dma_pool.rs:201-279 | in place: a live token's slot is wiped and becomes the head; a pool that is not ready, an index out of bounds and a stale token get their errors and change nothing |
| `SpscQueue.FifoOnEveryRun` | shawncore-rtos-sync/src/spsc_queue.rs:188-327 | for every producer/consumer interleaving, every power-of-two capacity and across index wrap-around: popped items followed by stored ones are the pushed ones, every stored item is in its slot but the one the consumer has cleared and not yet released, the defensive counter exits are never taken, and a peek returned what the pop at that position returns |
| `SpscQueue.AgentsOnEveryRun` | shawncore-rtos-sync/src/spsc_queue.rs:188-327 | at every point of every run: any producer step refuses a push exactly when it is the look at a full queue, any consumer step finds nothing exactly when it is the look at an empty queue, a slot being filled is never the one being emptied, and a counter about to be checked is even |
| `SpscQueue.CountersNeverTear` | shawncore-rtos-sync/src/spsc_queue.rs:275-300 | when the consumer checks it, the slot counter is even and unchanged |
| `SpscQueue.StepKeepsInv` | shawncore-rtos-sync/src/ring_buffer.rs:168-369 | every step of push, pop or peek keeps the queue, counter and output invariants |
| `SpscCalls.PushIsAnswered` | shawncore-rtos-sync/src/spsc_queue.rs:188-244 | on every run, whatever the consumer does meanwhile: a push is told QueueFull exactly when the queue is full as it looks, and otherwise five more of its own steps store the item and report success |
| `SpscCalls.PopIsAnswered` | shawncore-rtos-sync/src/ring_buffer.rs:229-369 | on every run, whatever the producer does meanwhile: a pop or peek finds nothing exactly when the queue is empty as it looks, and otherwise six more own steps, three for a peek, return the oldest item |
| `SpscCalls.SlotsOnEveryRun` | shawncore-rtos-sync/src/spsc_queue.rs:218-326 | on every run a slot counter is twice the number of pushes to the slot, modulo 2^64, plus one while it is written and two until published; a slot about to be released by a pop holds the default value |
| `WrappingQueue.AgentsNeverShareASlot` | shawncore-rtos-sync/src/spsc_queue.rs:200-215 | a producer filling and a consumer emptying are never in the same slot |
| `WrappingQueue.FullAndEmptyAreExact` | shawncore-pq-crypto/src/entropy_queue.rs:97-144 | the wrapped distance reports full, and equal indices report empty, exactly when the queue is full or empty |
| `WrappingQueue.ProducerKeepsInv` | shawncore-pq-crypto/src/entropy_queue.rs:97-123 | every producer step keeps stored items in their slots and the popped items a prefix of the pushed ones |
| `WrappingQueue.ConsumerKeepsInv` | shawncore-pq-crypto/src/entropy_queue.rs:138-171 | every consumer step keeps the same, and a read finds the oldest item |
| `RingBuffers.RingBuffer.Init` | shawncore-rtos-sync/src/ring_buffer.rs:91-147 | InvalidMemory exactly when the region is null, too small, overflowing or unaligned, AlreadyInitialized when ready, neither changing anything; otherwise ready, with every counter zero |
| `RingBuffers.RingBuffer.Push` | shawncore-rtos-sync/src/ring_buffer.rs:168-216 | in place: appends to the contents and counts the push in the slot counter, or reports not initialized or full (exactly at capacity) and changes nothing |
| `RingBuffers.RingBuffer.Pop` | shawncore-rtos-sync/src/ring_buffer.rs:229-304 | in place: removes and returns the oldest item and blanks its slot; nothing exactly when empty or not initialized |
| `RingBuffers.RingBuffer.Peek` | shawncore-rtos-sync/src/ring_buffer.rs:317-369 | returns the oldest item and leaves everything as it is |
| `QueueInit.InitializationIsOneShot` | shawncore-rtos-sync/src/spsc_queue.rs:132-165 | with any number of concurrent callers and users: all slot writes and the publication are one caller's, every slot once and published once, only that caller gets Ok and only once, readiness and buffer never change again, and every use is of that buffer |
| `QueueInitCalls.AnswersOnEveryRun` | shawncore-rtos-sync/src/ring_buffer.rs:113-146 | at every point of every run: a caller is refused exactly when the queue is ready or another caller is inside, a user exactly when it is not ready, the first to pass both checks initializes, and a step reports nothing else |
| `QueueInitCalls.CallsAreAnswered` | shawncore-rtos-sync/src/spsc_queue.rs:107-165 | on every run a call of init or of an operation ends within n + 7 of its own steps with exactly one answer, whatever the other threads do; success means the queue is ready with the buffer that call was given |
| `QueueInitCalls.WinnerSucceeds` | shawncore-rtos-sync/src/spsc_queue.rs:132-165 | a caller that passed both checks ends with success within n + 4 of its own steps |
| `EntropySystem.PoolOperationsSerialize` | shawncore-pq-crypto/src/entropy_pool.rs:175-325 | for any threads on any number of pools: each pool's operations are serial in the order they took its gate, each answered what it would have answered alone after those before it, a free pool is in the state they leave, and nothing changes the pool between a snapshot and its commit |
| `EntropySystem.ChunksEnterOnePool` | shawncore-pq-crypto/src/entropy_pool.rs:191-243 | every chunk leaves the queue in push order and enters exactly one pool, in that order, at most eight per operation |
| `EntropySystem.GatesExclude` | shawncore-pq-crypto/src/entropy_pool.rs:195-202 | at most one thread is inside the queue's consumer side and at most one inside each pool |
| `EntropySystem.GatesRefuseExactly` | shawncore-pq-crypto/src/entropy_pool.rs:258-274 | a call is refused exactly when another thread is inside that pool, an extraction is then told Busy and nothing else changes; mixing is skipped exactly when another holds the queue gate |
| `EntropySystem.LoopEndsExactly` | shawncore-pq-crypto/src/entropy_pool.rs:210-218 | the mixing loop ends exactly at eight chunks or on a queue that is empty |
| `EntropyPools.ExtractionIsAStream` | shawncore-pq-crypto/src/entropy_pool.rs:280-315 | extracting a bytes and then b gives the bytes and final state of extracting a + b if and only if a is a multiple of 48 or b is zero |
| `EntropyPools.ExtractionSteps` | shawncore-pq-crypto/src/entropy_pool.rs:280-315 | the output has the asked length and the final state is the 0x01 step iterated ceil(length / 48) times, a step that never returns to an earlier state by EntropyHistory.StateRemembersPast |
| `EntropyHistory.StateRemembersPast` | shawncore-pq-crypto/src/entropy_pool.rs:222-309 | two pools are in the same state only if they mixed the same chunks and gave out blocks in the same order: every mix and every 0x01 step keeps all that came before and never returns to an earlier state |
| `EntropyHistory.OutputIsNotState` | shawncore-pq-crypto/src/entropy_pool.rs:293-309 | no byte of output, of any pool at any time, is a byte of the state of any pool at any time |
| `EntropyHistory.OutputNeverRepeats` | shawncore-pq-crypto/src/entropy_pool.rs:280-315 | over any serial sequence of mixes and extractions no two positions of the output carry the same byte |
| `EntropyHistory.OutputOnEveryRun` | shawncore-pq-crypto/src/entropy_pool.rs:175-325 | on every run of any threads: no byte a pool gave out is given out by it again or is in the state of the free pool, which is the state of the chunks mixed and blocks given, in order |
| `EntropyHistory.StarvedExactlyUnseeded` | shawncore-pq-crypto/src/entropy_pool.rs:276-278 | on every run an extraction is starved exactly when the mixes of its pool so far, its own included, number zero modulo 2^64, and otherwise returns as many bytes as asked |
| `EntropyCalls.CallsAreAnswered` | shawncore-pq-crypto/src/entropy_pool.rs:175-325 | on every run a mix or extraction by an idle thread ends within a number of its own steps its arguments bound, whatever the producer and the other threads do, with exactly one reply that fits it |
| `EntropyCalls.FinishedCallsAnswerSerially` | shawncore-pq-crypto/src/entropy_pool.rs:258-325 | the reply of a call that got its pool is what it would have answered alone after the operations before it |
| `EntropyCalls.PushesAreQueued` | shawncore-pq-crypto/src/entropy_queue.rs:97-123 | on every run a pushed chunk is refused exactly when the queue is full as the push looks, and otherwise is queued by two more of its steps, whatever the mixing threads do |
| `EntropyPools.EntropyPool.constructor` | shawncore-pq-crypto/src/entropy_pool.rs:160-166 | a new pool is 48 zero bytes, never seeded, with its gate open |
| `EntropyPools.EntropyPool.MixEntropy` | shawncore-pq-crypto/src/entropy_pool.rs:175-185 | nothing happens while another operation is in the pool; otherwise it is the serial mix, and the gate is open again |
| `EntropyPools.EntropyPool.MixEntropyUnderGate` | shawncore-pq-crypto/src/entropy_pool.rs:191-243 | takes min(8, queued) chunks in order, or none when the queue gate is held, and makes one transition and one reseed count of them |
| `EntropyPools.EntropyPool.ExtractEntropy` | shawncore-pq-crypto/src/entropy_pool.rs:258-325 | EntropyBusy with nothing changed while another operation is in the pool; otherwise mixes first, reports EntropyStarvation with the buffer untouched exactly when the reseed count is then zero, and else fills the buffer with the stream and leaves its state; EntropyHistory.OutputNeverRepeats is about these bytes |
| `SchedulerRuns.StateIsHistory` | shawncore-rtos-sync/src/bitmap_scheduler.rs:124-307 | after every run each task, ready bit, critical bit, check-in and the current index is what the calls so far amount to: registered and last saved, last set or cleared, last required of a registered task, checked in since the last pet, last dispatched |
| `SchedulerRuns.SavedContextsStayValid` | shawncore-rtos-sync/src/bitmap_scheduler.rs:56-73 | after every run of calls, with the host overwriting any stack word: a registered task's saved pointer lies in its own aligned stack above the canary word, the current index is in range, and the critical mask names only registered tasks |
| `SchedulerRuns.RegistersExactly` | shawncore-rtos-sync/src/bitmap_scheduler.rs:124-157 | on every run a registration succeeds exactly for an entry point, a free priority below 16 and a pointer above the canary word of an aligned stack that does not wrap; otherwise nothing changes |
| `SchedulerRuns.OneTaskPerPriority` | shawncore-rtos-sync/src/bitmap_scheduler.rs:124-157 | no run registers two tasks at one priority |
| `SchedulerRuns.CanaryBrokenMeansWritten` | shawncore-rtos-sync/src/bitmap_scheduler.rs:243-289 | on every run a canary is found broken exactly when the word last written over it differs, and then the host or a registration on the same stack base has overwritten it since the task was registered |
| `SchedulerRuns.DispatchesAreFaithful` | shawncore-rtos-sync/src/bitmap_scheduler.rs:264-307 | every dispatch of every run picks the lowest bit last set ready and not cleared (or the idle slot) and returns the pointer last validated for that task, or its initial one |
| `SchedulerRuns.PetsNeedEveryCheckIn` | shawncore-rtos-sync/src/bitmap_scheduler.rs:188-214 | every pet of every run was preceded, since the previous pet, by a check-in of each task then critical, all of them registered before |
| `SchedulerRuns.PetsExactly` | shawncore-rtos-sync/src/bitmap_scheduler.rs:294-302 | a dispatching tick pets if and only if some task is critical and every critical one has checked in |
| `SchedulerRuns.TickFaultsIff` | shawncore-rtos-sync/src/bitmap_scheduler.rs:232-292 | a tick faults exactly on a bad context to save, a broken canary of the next task, or a ready bit without a task; a faulting tick changes at most the current task's saved pointer |
| `SchedulerRuns.ZeroIff` | shawncore-rtos-sync/src/bitmap_scheduler.rs:224-307 | on every reachable state, from the state before the tick: zero is returned if and only if a canary the tick checks is broken, the passed pointer is outside the current task's stack, or the slot to run is not registered |
| `SchedulerRuns.IdleTickReturnsZero` | shawncore-rtos-sync/src/bitmap_scheduler.rs:273-307 | a tick straight from boot dispatches the empty idle slot and returns zero, with no overflow |
| `SchedulerRuns.PhantomTaskReturnsZero` | shawncore-rtos-sync/src/bitmap_scheduler.rs:290-292 | a ready bit without a task returns zero, with no overflow |
| `SchedulerRuns.StrayPointerReturnsZero` | shawncore-rtos-sync/src/bitmap_scheduler.rs:243-262 | a pointer outside the running task's stack returns zero, with every canary intact |
| `Schedulers.SelectedIsChosen` | shawncore-rtos-sync/src/bitmap_scheduler.rs:267-271 | trailing-zeros selection is the lowest set bit, with fallback to 15, and nothing else is |
| `Schedulers.PerCoreScheduler.constructor` | shawncore-rtos-sync/src/bitmap_scheduler.rs:80-105 | sixteen empty slots, nothing ready, idle current |
| `Schedulers.PerCoreScheduler.RegisterTask` | shawncore-rtos-sync/src/bitmap_scheduler.rs:124-157 | a valid new task gets its slot, canary word and ready bit; anything else is TaskFault with no change |
| `Schedulers.PerCoreScheduler.SetReadyBit` | shawncore-rtos-sync/src/bitmap_scheduler.rs:165-181 | sets or clears one ready bit in range |
| `Schedulers.PerCoreScheduler.TaskCheckIn` | shawncore-rtos-sync/src/bitmap_scheduler.rs:188-192 | records the check-in of a registered task only |
| `Schedulers.PerCoreScheduler.SetCriticalTaskMask` | shawncore-rtos-sync/src/bitmap_scheduler.rs:200-214 | the fold keeps exactly the registered tasks of the mask and drops other check-ins |
| `Schedulers.PerCoreScheduler.ScheduleTick` | shawncore-rtos-sync/src/bitmap_scheduler.rs:232-307 | the in-place tick returns, saves, pets and switches exactly as the tick function the run theorems are about |
| `FfiRanges.OverlapDecidesSharing` | shawncore-pq-crypto/src/ffi.rs:1752-1770 | two non-empty ranges overlap if and only if one wraps or they share an address, in either order |
| `FfiRanges.RangeOkIff` | shawncore-pq-crypto/src/ffi.rs:1742-1744 | a range passes if and only if its length is a slice length and it does not wrap, and then all its bytes have addresses |
| `FfiRanges.WritableRegionsOverlap` | shawncore-pq-crypto/src/ffi.rs:516-534 | the nested loop returns false if and only if every pair of non-empty regions with one writable neither wraps nor shares an address |
| `FfiRanges.SessionEncryptChecksEveryPair` | shawncore-pq-crypto/src/ffi.rs:1773-1798 | the hand-written pair list equals the general test on its regions, for all addresses and lengths |
| `FfiRanges.SessionDecryptChecksEveryPair` | shawncore-pq-crypto/src/ffi.rs:1801-1821 | the hand-written pair list equals the general test on its regions, for all addresses and lengths |
| `FfiRanges.AeadEncryptChecksEveryPair` | shawncore-pq-crypto/src/ffi.rs:1824-1846 | the hand-written pair list equals the general test on its regions, for all addresses and lengths |
| `FfiRanges.AeadDecryptChecksEveryPair` | shawncore-pq-crypto/src/ffi.rs:1849-1866 | the hand-written pair list equals the general test on its regions, for all addresses and lengths |

## Left out

- Internals of ML-KEM, ML-DSA, X25519, SHA-384, HMAC, HKDF-Expand and ChaCha20: symbolic terms with the laws that decapsulation inverts encapsulation, Diffie-Hellman commutes and the keystream is its own inverse.
- X25519 clamping: two secrets that clamp to the same scalar are different terms here.
- Secrecy, constant-time comparison, zeroization of stack temporaries, cache flushing and fences.
- Weak-memory reorderings: all interleavings are sequentially consistent.
- `aead_encrypt_in_place` and `aead_decrypt_in_place`: the same framing on one buffer; only the two-buffer functions are modelled.
- Error branches of the HKDF, HMAC and confirmation-tag calls that cannot be reached with the fixed sizes the session manager passes.
- `StaticDmaPool::init` called concurrently, and the readiness check inside the concurrent pool runs: those start from one completed initialization. The object answers both.
- Update in place for the concurrent protocols: the interleaved pool, queue and entropy machines are values stepped by functions; only the objects used by one caller at a time are classes with fields and arrays.
- The slot wipe inside the concurrent pool is one step of the freeing thread; its loop is proved separately in `DmaWipe`.
- EntropyPools.EntropyPool.MixEntropyUnderGate: the global queue is passed as the sequence of chunks it holds and the number taken is returned, and the queue gate as what its compare-exchange finds, because both are shared state of `EntropySystem`.
- HybridKdf.DeriveHybridKeyWithConfirmation: has no HkdfError result, because expansions of 128 and 96 bytes are always within the limit of HKDF-Expand.
- Schedulers.PerCoreScheduler.ScheduleTick: the memory behind stack pointers is a parameter holding one word per stack base, since stacks belong to the host; bitmaps are sequences of sixteen booleans.
- DmaTokens.SlotsArePartitioned: restricted, like the other list theorems, to fewer than 2^32 head updates between a popper's load and its compare-exchange; `DmaLimits.TagBoundIsTight` shows that limit is needed.
- DmaCalls.AllocateCompletes: an allocation ends when it is left alone; under contention the retry loop of the source has no bound.
- DmaTokens.TokensAreUsedOnce: restricted besides to 2^63 allocations of a slot; `DmaLimits.GenerationBoundIsTight` shows that limit is needed.
- HandshakeAgreement.AgreementIsInjective: assumes key-generation seeds are not reused, which the entropy source must provide.
- AuthenticTraffic.AcceptedTrafficIsAuthentic: assumes fresh entropy in key generation and encapsulation, and that a valid tag under a trusting session's receive key was made by some session's send; that the attacker does not hold that key is secrecy, which is not modelled.
- SecureChannel.ChannelTheorem: is about two sessions and assumes their two MAC keys are used by no third; `AuthenticTraffic` proves that of the world, given fresh entropy.
- The rest of both C interfaces, host callbacks, error tables, `latency_tracker.rs`, `state_machine.rs`, `telemetry_queue.rs`, `interrupt_spinlock.rs` (a lock section is one step) and the Python scripts: they would add only easy members.
