# sshush: a Dafny model of the vault, its protocol and its password guard

sshush is an SSH agent whose private keys live encrypted in a vault file, with an `sshush-op`
extension that carries the reason an operation failed, and an SSH server that checks passwords
against the vault. This project models that behaviour and proves what it promises over whole runs.

Run `dafny verify dfyconfig.toml` in this directory (Dafny 4.11).

## How it is organised

| files | what they hold |
|---|---|
| `Crypto.dfy` | the primitives as function values with stated laws, blobs, key marshalling, wiping |
| `IdentityList.dfy`, `Disk.dfy`, `Store.dfy` | the identity list as an insertion-ordered map, a file system with crashes, the store edited in place and saved |
| `VaultMachine.dfy`, `Provenance.dfy`, `VaultInvariant.dfy`, `VaultBehaviour.dfy`, `VaultOutcomes.dfy` | the vault agent as a state machine, where each stored identity comes from, the one-key invariant of every run, what clients see, and when each operation succeeds or fails |
| `RunningAgent.dfy` | the agent as a class whose methods each take one step of that machine |
| `Text.dfy`, `Wire.dfy`, `OpDispatch.dfy`, `OpOutcomes.dfy`, `SessionClient.dfy` | white space and words, framing and payload codecs, the server's dispatch and what it refuses, the client's view |
| `VaultVerbs.dfy`, `VerbOutcomes.dfy` | verbs over several selectors, and what holds of everything they report |
| `PasswordGuard.dfy`, `GuardRuns.dfy` | the failure map against the full history, and every interleaving of attempts |
| `LockedKeyring.dfy` | the lock around a plain keyring |
| `WordWrap.dfy`, `TailLines.dfy`, `Reload.dfy` | optimal wrapping, last lines of a log, reconciling keys with the configuration |

## Main results

- From creation on, in every reachable state and whatever keys are added, passphrase and recovery phrase
  unlock one and the same key, and every stored blob opens under it alone (`VaultInvariant.CreatedVaultHasOneKey`).
  A blob holds its own private key exactly as long as no key with disagreeing halves is added under its
  fingerprint (`VaultInvariant.AddStoresOwnKeyIff`, `VaultInvariant.EveryRunKeepsOwnKey`).
- Listing and signing agree but for the hidden autoload identities, and nothing is listed or signed with
  after its expiry (`VaultBehaviour.ListingAndSigningAgreeButForHidden`, `VaultBehaviour.NeverServedAfterExpiry`).
- Every operation succeeds, and fails with each of its errors, on an exact condition (`VaultOutcomes`); what
  a verb over several selectors reports holds of the agent and the file however the verb ended
  (`VerbOutcomes`).
- A conversation over `sshush-op` is the run of method calls it stands for (`OpDispatch.ConversationIsRun`);
  every codec is proved both ways, with its exact range (`Wire`); no sequence of bytes breaks the one key
  (`OpDispatch.AnyMessagesKeepOneKey`).
- The self-pruning failure map answers as the whole history does (`PasswordGuard.PrunedMapAnswersAsHistory`).
  With at most m of a host's attempts past the gate at once, limit + m consecutive failures span a
  lockout, whatever other hosts do, and that bound is met (`GuardRuns.GuessingIsRateLimited`,
  `GuardRuns.TheBoundIsMet`).
- The running objects, edited in place, take exactly the steps those results are about (`RunningAgent`, `Store`).
- The locked wrapper is its inner agent, driven by exactly the requests let through
  (`LockedKeyring.UnlockedIsTransparent`), locking and unlocking restores it
  (`LockedKeyring.LockThenUnlockRestores`), greedy wrapping is
  optimal (`WordWrap.GreedyIsOptimal`), and reconciling settles and says exactly what it removes
  (`Reload.ReconcilingSettles`, `Reload.ReloadRemoves`).

## Modelling choices

- A Go string is a sequence of bytes. Numbers are unbounded except where a width matters: 4-byte
  lengths are taken modulo 2^32 when written. `int` is 64 bits wide, so a 4-byte length never
  overflows it.
- Cryptography and key parsing are fields of `Crypto.Primitives`. `Crypto.Lawful` states the laws used:
  a sealed blob opens under the key that sealed it and under no other 32-byte key, PKCS#8 reads back what
  it wrote, key blobs name their type, fingerprints are distinct. `Crypto.TOY` is an instance, so the
  laws are consistent. Nothing is assumed of key derivation beyond being a function.
- Each public method is one atomic step. `List` takes its lock in several phases and `signerForKey` reads
  the key after releasing it; the model does not interleave inside them.
- The clock, salts, IVs and where a Save fails are arguments (`Env`). A crash during Save is the step
  whose Save failed before the rename, or after it, followed by `Restart`; `Store.VaultStore.Save` shows
  there is no third possibility.
- Vault runs include restarts and failed saves, so memory and file may differ along a run; the invariant
  covers both.

## Where the code differs from its comments, or from what one would expect

- `sessionUnload` is described as hiding a key from List and Sign (internal/vault/agent.go:367), but
  signing never looks at the hidden set. `VaultBehaviour.ListingAndSigningAgreeButForHidden` and
  `VaultBehaviour.SessionUnloadEffect` state the exact difference.
- `EnableRecoveryWithPassphrase` derives a key and does not compare it with the canary. Recovery yields
  the vault's key exactly when the passphrase given derives it (`VaultInvariant.RecoveryKeepsOneKeyIff`);
  `VaultInvariant.RecoveryUnderAnotherPassphrase` is a concrete vault where it does not.
- An Ed25519 key whose two halves disagree is stored by its seed and filed under its public half. It
  reads back as itself exactly when the halves agree (`VaultBehaviour.AddedKeySigns`), and adding it is the
  one thing that makes a blob hold another's key (`VaultInvariant.AddStoresOwnKeyIff`).
  `VaultBehaviour.MismatchedKeyIsStored` is a concrete such key.
- The version-1 add-key parser admits a PEM that fills the payload and then reads one byte past the end.
  Nothing recovers that panic, which is raised in the goroutine serving the connection
  (internal/agent/server.go:82), so it ends the daemon: the model gives no answer and goes on from a
  daemon started over the file. `OpDispatch.EveryMessageIsAnsweredUnlessItFaults` gives the exact messages
  that cause it and what one costs.
- Re-adding a hidden key with autoload leaves it hidden (`VaultBehaviour.AddEffect`). Turning autoload
  off hides a key at once unless it was session-loaded (`VaultBehaviour.SetAutoloadEffect`).
- A keyring's other extensions are not gated by the lock: a locked wrapper over an inner agent that changes on
  them changes too (`LockedKeyring.ExtensionsReachALockedInner`).
- A reload removes from a vault-backed agent every listed identity that is neither a key path nor in the
  vault file as it opened (`Reload.ReloadRemoves`). A missing file opens as an empty store, so it removes
  as much as a file that cannot be opened (`Reload.MissingFileEmptiesTheAgent`).
- The lockout counts failures, not attempts: attempts that passed the gate together can all fail after the
  limit is reached. Six failures fit in one instant with two attempts overlapping (`GuardRuns.SixAtOnce`).
- A removal whose save fails is gone from memory and still in the file
  (`VaultVerbs.UnsavedRemovalLeaves`).
- Reloading a configured key that is stored but not listed replaces it: it no longer autoloads and loses
  its file path (`Reload.ReconcilingReplacesUnlisted`).

## Model

| member | source | states |
|---|---|---|
| VaultInvariant.CreatedVaultHasOneKey | internal/vaultops/init.go:57-79 | in every state reachable from a vault's creation, whatever keys are added, the invariant holds, the passphrase and the phrase, if one was made, both unlock exactly the key the passphrase derived at creation, and every fingerprint under which no mismatched key was added holds its own private key |
| VaultInvariant.InitEstablishesOneKey | internal/vault/init.go:13-33 | a vault created on an empty store satisfies the one-key invariant in memory and on disk |
| VaultInvariant.RecoveryKeepsOneKeyIff | internal/vault/recovery.go:22-54 | after enabling recovery the phrase unwraps the key of the passphrase it was given; the invariant holds if and only if that is the vault's key |
| VaultInvariant.RecoveryUnderAnotherPassphrase | internal/vault/recovery.go:46-54 | a concrete vault whose passphrase and recovery phrase unlock different keys |
| VaultInvariant.UnlockingYieldsTheOneKey | internal/vault/verify.go:26-38 | unlocking by passphrase or by phrase yields exactly the vault's key or fails with its named error, decided by the derived key alone |
| VaultInvariant.EveryRunKeepsOneKey | internal/vault/agent.go:122-458 | in every reachable state, restarts, failed saves and any keys included, one key and no other opens the canary, the wrapped key and every stored blob, each blob holds a key that can sign, each identity is filed under its own fingerprint, fingerprints are unique, and both session sets hold only stored fingerprints |
| VaultInvariant.AddStoresOwnKeyIff | internal/vault/keys.go:15-47 | an add that reaches the store keeps the one key, and keeps every blob holding the private key of its own public key if and only if the halves of the key added agree, saved or not |
| VaultInvariant.EveryRunKeepsOwnKey | internal/vault/agent.go:122-458 | every stored copy of a fingerprint goes on holding its own private key through any run that adds no mismatched key under that fingerprint |
| VaultBehaviour.MismatchedKeyIsStored | internal/vault/keys.go:15-47 | a concrete key with disagreeing halves that a new vault stores and then signs for with another private key |
| VaultBehaviour.RunsSignWithTheOwnKey | internal/vault/agent.go:269-311 | in every state a run reaches, a signature for a stored identity is by the private key of its own public key if no mismatched key was added under its fingerprint |
| Provenance.StepComesFrom | internal/vault/agent.go:41-458 | whatever the step and the fate of its save, everything in memory and in the file after it was stored before with the same key, blob and expiry, or is what the command adds sealed under the vault's key |
| Provenance.EveryRunKeepsFiling | internal/vault/agent.go:125-168 | in every run, for any primitives, each stored identity is filed under the fingerprint of its own public key |
| VaultBehaviour.AddedKeySigns | internal/vault/keys.go:15-47 | an added key is the key that then signs, if and only if its two halves agree |
| Crypto.StoredKeyReadsBack | internal/vault/keys.go:15-47 | marshal then unmarshal by key type gives a key, and the same key and public blob if and only if it was consistent |
| Crypto.EncryptHolds | internal/vault/cipher.go:20-62 | what is encrypted under a key decrypts under it to the same bytes and under no other key |
| Crypto.BlobOutcome | internal/vault/cipher.go:20-62 | when encrypting and decrypting fail, with which error, and the IV-first layout |
| Crypto.Wipe | internal/vault/cipher.go:65-69 | every byte of the buffer becomes zero |
| VaultBehaviour.PurgeRemovesExactlyTheExpired | internal/vault/agent.go:41-66 | purging removes exactly the expired identities from the store and both session sets and leaves every other identity findable as before |
| VaultBehaviour.PurgeFailureIsReported | internal/vault/agent.go:62-73 | when dropping the expired cannot be saved, List and Sign fail with that error, the file is unchanged, and memory holds no expired identity |
| VaultBehaviour.ListReportsExactly | internal/vault/agent.go:70-103 | List returns, in store order, exactly the unexpired identities that autoload and are not hidden or were loaded for the session |
| VaultBehaviour.SigningExactly | internal/vault/agent.go:269-311 | a stored identity signs exactly when unexpired and autoload or session-loaded, with the private key of its own public key exactly when its blob holds that key, and otherwise is not found |
| VaultBehaviour.ListingAndSigningAgreeButForHidden | internal/vault/agent.go:269-387 | in every unlocked state any run reaches, whatever keys it added, every listed key can sign, and what signs unlisted is exactly the hidden autoload identities |
| VaultBehaviour.SessionLoadEffect | internal/vault/agent.go:349-365 | loading makes one identity visible and usable and changes neither store nor file |
| VaultBehaviour.SessionUnloadEffect | internal/vault/agent.go:374-387 | unloading hides one identity, stops it signing only if it does not autoload, and is undone by loading |
| VaultBehaviour.SetAutoloadEffect | internal/vault/agent.go:390-424 | changes that field and the stamp of one identity, keeps the order, saves, and shows or hides exactly that identity |
| VaultBehaviour.SetCommentEffect | internal/vault/agent.go:428-458 | changes that field and the stamp of one identity, keeps the order, saves, and changes no visibility |
| VaultBehaviour.AddEffect | internal/vault/agent.go:125-168 | adds or replaces one identity in place with its expiry, comment and path, saves, and says exactly what becomes visible |
| VaultBehaviour.RemoveEffect | internal/vault/agent.go:172-189 | erases one identity from store and session sets, saves, and leaves the others |
| VaultOutcomes.RemoveAllEffect | internal/vault/agent.go:192-205 | an unlocked vault is left without any identity to find, list or sign with, in memory and in the file if the save lands, with empty session sets and its key and metadata; Done exactly when the save succeeds; a locked one is unchanged |
| VaultOutcomes.UnlockInstallsTheKey | internal/vault/agent.go:249-264 | a locked vault is unlocked under its one key exactly by a passphrase that derives it, an unlocked one refuses, and nothing else changes |
| VaultOutcomes.RecoveryInstallsTheKey | internal/vault/agent.go:221-245 | the right phrase leaves the vault unlocked under its one key, from locked or unlocked, and any other phrase changes nothing and is told from a vault without one |
| VaultOutcomes.LockThenUnlockRestores | internal/vault/agent.go:209-264 | locking forgets the key alone, and the passphrase or the phrase then brings back the exact earlier vault; a locked vault refuses |
| VaultOutcomes.RecoveredVaultSigns | internal/vault/agent.go:221-299 | after the right phrase, whatever the vault lists it signs for |
| VaultOutcomes.CreationOutcome | internal/vault/init.go:13-33 | creation fails exactly when the policy refuses or the save fails, enabling recovery exactly when uninitialised or the save fails, and what each changes |
| VaultOutcomes.AddOutcome | internal/vault/agent.go:125-168 | the exact condition of success and of each error of an add; only a failed save changes anything |
| VaultOutcomes.UnsavedAddEffect | internal/vault/agent.go:158-168 | an add whose save fails has changed the store in memory and not the session sets |
| VaultOutcomes.ConstrainedAddIsRefused | internal/vault/agent.go:109-120 | a plain add with a confirm, extension or certificate constraint is refused in any state and changes nothing; any other adds for the session |
| VaultBehaviour.AddedEntry | internal/vault/agent.go:146-157 | the new entry carries the key's public half, its sealed private half and the time, and no access time |
| VaultOutcomes.RemoveOutcome | internal/vault/agent.go:172-189 | the exact condition of success and of each error of a removal |
| VaultOutcomes.FailedRemovalEffect | internal/vault/agent.go:172-189 | removing what is not stored changes nothing; a removal whose save fails is gone from memory and kept in the file |
| VaultOutcomes.SessionOutcome | internal/vault/agent.go:349-387 | loading and unloading succeed exactly for a stored identity of an unlocked vault, and otherwise change nothing |
| VaultOutcomes.AutoloadEndsTheLoading | internal/vault/agent.go:420-423 | loaded, set to autoload and unset again, a key is neither listed nor signs |
| VaultOutcomes.LoadingAnAutoloadKeyIsNotKept | internal/vault/agent.go:349-365 | loading an autoload key does not outlive its autoload flag |
| VaultOutcomes.UnloadingOutlastsAReAdd | internal/vault/agent.go:374-387 | an unloaded key, of either flag, added again with autoload stays unlisted and signs, until loaded |
| VaultOutcomes.SetAutoloadOutcome | internal/vault/agent.go:390-424 | the exact condition of success and of each error, the idle case, and what a failed save leaves |
| VaultOutcomes.SetCommentOutcome | internal/vault/agent.go:428-458 | the same of the comment, the empty one included |
| VaultOutcomes.ReadingOnlyPurges | internal/vault/agent.go:41-103 | listing and signing change the vault alike, only by dropping the expired, and save what they drop |
| VaultOutcomes.SigningOutcome | internal/vault/agent.go:269-299 | each way signing for a stored identity can fail |
| VaultOutcomes.UnstoredDoesNotSign | internal/vault/agent.go:276-284 | a key that is not stored, or whose every copy has expired, is not found |
| VaultBehaviour.NeverServedAfterExpiry | internal/vault/agent.go:41-66 | for any primitives and in any run that does not add the key again, no step after the limit lists it or signs with it, across edits, failed saves and restarts |
| VaultBehaviour.AddingSetsTheLimit | internal/vault/agent.go:155-157 | adding with a lifetime puts every stored copy under the limit that theorem starts from |
| VaultBehaviour.FileMirrorsMemory | internal/vault/store.go:87-126 | a run whose saves succeed keeps file and memory equal |
| VaultBehaviour.RestartForgetsTheSession | internal/vault/agent.go:29-37 | a restart keeps the file's store and forgets key and session sets; unlocking then lists exactly the persisted unexpired autoload identities |
| Store.VaultStore.Save | internal/vault/store.go:88-126 | the file becomes the memory unless a step before the mode change fails; every state on the way, and every crash from it, has the complete old or complete new file at the vault path; no written temporary file is left |
| Store.VaultStore.Open | internal/vault/store.go:57-85 | a missing file opens empty, a complete one opens as itself, and each failure is named |
| Store.VaultStore.RemoveIdentity | internal/vault/store.go:211-226 | the in-place compaction is the order-keeping filter, and reports whether anything went |
| Store.VaultStore.AddOrReplaceIdentity | internal/vault/store.go:195-207 | stamps and replaces the first entry of that fingerprint where it stands, or appends |
| Store.VaultStore.GetIdentity | internal/vault/store.go:183-192 | returns the first entry with the fingerprint, or not found |
| Store.VaultStore.ListIdentitiesForAgent | internal/vault/store.go:158-175 | the rows of autoload identities not hidden and others session-loaded, in order |
| IdentityList.PutRefines | internal/vault/store.go:195-207 | replace-or-append is map update that keeps an existing key's place and puts a new one last |
| IdentityList.RowsInOrder | internal/vault/store.go:158-175 | the rows listed come in store order, one for each identity selected |
| IdentityList.WithoutRefines | internal/vault/store.go:211-226 | removal restricts the map and keeps fingerprints unique |
| IdentityList.WithoutAppend | internal/vault/store.go:211-226 | removal distributes over concatenation, so it keeps order |
| RunningAgent.VaultAgent.PurgeExpired | internal/vault/agent.go:41-66 | the two loops and the save take the machine's purge step |
| RunningAgent.VaultAgent.List | internal/vault/agent.go:70-103 | takes the machine's List step |
| RunningAgent.VaultAgent.Add | internal/vault/agent.go:109-120 | refuses unsupported constraints, else adds for the session |
| RunningAgent.VaultAgent.AddKeyWithAutoload | internal/vault/agent.go:125-168 | takes the machine's add step, errors in the source's order |
| RunningAgent.VaultAgent.Remove | internal/vault/agent.go:172-189 | takes the machine's remove step |
| RunningAgent.VaultAgent.RemoveAll | internal/vault/agent.go:192-205 | empties store and session sets and saves |
| RunningAgent.VaultAgent.Lock | internal/vault/agent.go:209-218 | drops the key after zeroing its buffer, or fails if already locked |
| RunningAgent.VaultAgent.Unlock | internal/vault/agent.go:249-264 | installs a fresh key buffer that opens the canary, or fails and changes nothing |
| RunningAgent.VaultAgent.UnlockWithRecovery | internal/vault/agent.go:221-245 | installs the unwrapped key in a fresh buffer, zeroing any earlier one, even when already unlocked |
| RunningAgent.VaultAgent.SignerForKey | internal/vault/agent.go:269-299 | the signer or the source's error for a public key |
| RunningAgent.VaultAgent.SessionLoad | internal/vault/agent.go:349-365 | takes the machine's session-load step |
| RunningAgent.VaultAgent.SessionUnload | internal/vault/agent.go:374-387 | takes the machine's session-unload step |
| RunningAgent.VaultAgent.SetIdentityAutoload | internal/vault/agent.go:390-424 | takes the machine's set-autoload step, session sets untouched if the save fails |
| RunningAgent.VaultAgent.SetIdentityComment | internal/vault/agent.go:428-458 | takes the machine's set-comment step |
| RunningAgent.MasterKeyFromPassphrase | internal/vault/verify.go:26-38 | a fresh buffer holding the key that opens the canary, or none |
| RunningAgent.VerifyPassphrase | internal/vault/verify.go:13-20 | accepts exactly the passphrases that would unlock, and changes nothing |
| RunningAgent.InitVault | internal/vault/init.go:13-33 | sets salt and canary on the store and saves, as the machine's Init |
| RunningAgent.EnableRecoveryOnWithPassphrase | internal/vault/recovery.go:46-54 | sets recovery salt and wrapped key and saves, as the machine does |
| Wire.RequestsRoundTrip | internal/agent/op.go:65-83 | a request decodes to an op and payload if and only if it is their encoding |
| Wire.ResponsesRoundTrip | internal/agent/op.go:87-126 | a response decodes to its data or to its status's sentinel, and is never empty |
| Wire.EncodeFrame | internal/agent/op.go:65-93 | the buffer filled in place is version, code, body |
| Wire.BuildSetAutoloadPayload | internal/vault/payload.go:10-19 | the buffer filled in place is the specified layout |
| Wire.SetAutoloadParsesBack | internal/vault/op.go:122-136 | built payloads parse back if and only if the length fits 32 bits |
| Wire.SetAutoloadBuildsBack | internal/vault/op.go:122-136 | every accepted payload is byte for byte what the builder makes of the result |
| Wire.BuildSetCommentPayload | internal/vault/payload.go:24-34 | the buffer filled in place is the specified layout |
| Wire.SetCommentParsesBack | internal/vault/op.go:140-155 | built payloads parse back if and only if both lengths fit 32 bits |
| Wire.SetCommentBuildsBack | internal/vault/op.go:140-155 | every accepted payload is byte for byte what the builder makes of the result |
| Wire.BuildAddKeyOptsPayload | internal/vault/payload.go:39-58 | the buffer filled in place is the version-1 layout |
| Wire.AddKeyOptsParsesBack | internal/vault/op.go:159-185 | version-1 payloads parse back to key bytes, autoload and path if and only if both lengths fit 32 bits |
| Wire.LegacyParsesBack | internal/vault/op.go:186-196 | legacy payloads parse back to their own fields if and only if the PEM is shorter than 2^24, or at least 2^25 and within 32 bits |
| Wire.AcceptedV1Shape | internal/vault/op.go:165-185 | what the version-1 branch accepts has that layout, with the path taken only when complete |
| Wire.V1AcceptedIff | internal/vault/op.go:165-185 | the version-1 branch accepts exactly the payloads of that shape, with or without a whole path |
| Wire.AcceptedLegacyShape | internal/vault/op.go:186-196 | what the legacy branch accepts begins with the legacy layout of its result |
| Wire.LegacyAcceptedIff | internal/vault/op.go:186-196 | the legacy branch accepts exactly the payloads that begin with that layout |
| Wire.FaultExactly | internal/vault/op.go:165-172 | the parser reads past the end exactly for a version-1 PEM length covering all remaining bytes |
| OpDispatch.ReplyReachesClient | internal/vault/op.go:24-49 | a method's reply, encoded and decoded, is success or the sentinel naming the method's own error |
| OpDispatch.RequestIsMethodCall | internal/vault/op.go:53-118 | one request does what its method call does on the normalised payload, and the client learns that call's result |
| OpDispatch.ConversationIsRun | internal/agent/op.go:156-167 | any sequence of requests leaves the vault where the sequence of method calls would |
| OpDispatch.AnyBytesAreARun | internal/vault/op.go:53-118 | any sequence of byte messages leaves the vault where a run of method calls and restarts would |
| OpDispatch.AnyMessagesKeepOneKey | internal/vault/op.go:53-118 | no sequence of messages, well formed or not, whatever keys they carry and however many bring the daemon down, breaks the one-key invariant |
| OpDispatch.EveryMessageIsAnsweredUnlessItFaults | internal/vault/op.go:53-118 | exactly the faulting add-key messages get no answer, and each leaves the vault locked with empty session sets and the store its file holds; refused messages change nothing |
| OpDispatch.HandleOp | internal/vault/op.go:53-118 | the dispatch on the running agent takes the served step, or faults and leaves only its file |
| OpOutcomes.RequestNumbers | internal/agent/op.go:31-43 | the version and operation bytes of every request |
| OpOutcomes.StatusNumbers | internal/vault/op.go:24-49 | the bytes that answer success and each error of a method |
| OpOutcomes.AnswerMeanings | internal/agent/op.go:113-149 | exactly which answers carry data, name each error, count as an internal failure, or are no answer |
| OpOutcomes.PayloadBytes | internal/vault/payload.go:10-58 | the three payload layouts byte by byte on small payloads, lengths most significant byte first |
| OpOutcomes.RefusedExactly | internal/vault/op.go:53-118 | exactly which bytes are refused as malformed and which as unsupported; a refusal changes nothing |
| OpOutcomes.SentKeyIsStored | internal/vault/op.go:200-223 | a key file sent is stored with its own comment, the path and flag sent, and no lifetime |
| OpDispatch.PhraseNormalisation | internal/vault/op.go:76-78 | two phrases reach the vault alike if and only if they have the same words, which it keeps; words one space apart pass unchanged; normalising is idempotent |
| Text.FieldsOfJoin | internal/vault/op.go:77-77 | splitting joined words gives the words back |
| Text.SpacesSeparate | internal/vault/op.go:77-77 | the words are those before any white space and then those after it |
| Text.WhiteIsSpace | internal/vault/op.go:77-77 | where the UTF-8 encoding of a white space code point stands, all of it is taken |
| Text.SpaceIsWhite | internal/vault/op.go:77-77 | only the encoding of a white space code point is taken |
| Text.TrimSpaceExactly | internal/vault/op.go:81-81 | trimming takes white space from both ends, nothing else, and all of it |
| SessionClient.BackendTellsAgentsApart | internal/agent/backend_kind.go:30-43 | one question tells a vault and its lock state, an sshush keyring and a foreign agent apart, and changes none |
| SessionClient.BackendUnknownIff | internal/agent/backend_kind.go:30-42 | an agent stays unclassified exactly when the exchange broke or the answer is an error other than unknown operation |
| SessionClient.FallsBackOnlyWhenUnsupported | internal/agent/session.go:81-96 | the plain protocol decides exactly when the agent does not know sshush-op |
| SessionClient.LockReasonSurvives | internal/agent/session.go:81-86 | locking over a session locks the vault and forgets nothing else, or says that it was locked |
| SessionClient.UnlockReasonSurvives | internal/agent/session.go:91-96 | an unlock over the session reports the agent's own reason, and the vault is unlocked after it exactly when it says so or already was |
| VaultVerbs.MethodErrorReachesFrontEnd | internal/vaultops/errors.go:91-149 | each method error arrives at the front end as the code that names it |
| VaultVerbs.ResolvesExactly | internal/vault/resolve.go:13-37 | a selector resolves to an identity exactly when it is its fingerprint, or no fingerprint and its comment alone |
| VaultVerbs.ResolveIdentity | internal/vault/resolve.go:13-37 | the two searches compute that resolution |
| VaultVerbs.StopsAtFirstFailure | internal/vaultops/keys.go:54-82 | the reported list is the resolved prefix, the agent has been through exactly it and then the refused one, and the code is that failure's |
| VerbOutcomes.LoadActs | internal/vaultops/session.go:30-30 | the verb's action is the agent's session-load of the selector's fingerprint, and it hears that call's own error |
| VerbOutcomes.AutoloadActs | internal/vaultops/session.go:63-63 | the verb's action sets the flag asked for, of the selector's fingerprint, and it hears that call's own error |
| VerbOutcomes.ReportedAutoloadIsSet | internal/vaultops/session.go:47-69 | however the verb ends, every identity it reports has the flag asked for, in memory and, if they agreed before, in the file |
| VerbOutcomes.ReportedLoadShows | internal/vaultops/session.go:17-38 | however the verb ends, every identity it reports is listed and can sign |
| VerbOutcomes.ReportedRemovalIsGone | internal/vaultops/keys.go:54-82 | however the verb ends, every identity it reports is gone from the agent and the file |
| VerbOutcomes.CodesTellProblemsApart | internal/vaultops/errors.go:91-149 | exactly which failures become which code |
| VerbOutcomes.SelectorStandsFor | internal/vaultops/conn.go:189-204 | the identity a selector stands for, by key file or by fingerprint and comment, and each way it can fail |
| VerbOutcomes.FingerprintStandsFor | internal/vaultops/conn.go:211-227 | the fingerprint a selector stands for, with and without a vault configured |
| VaultVerbs.RemoveEach | internal/vaultops/keys.go:54-82 | the loop of Remove on the running agent computes that run, each removal with its own clock and save outcome |
| VaultVerbs.LoadEach | internal/vaultops/session.go:17-38 | the loop of SessionLoad on the running agent computes that run |
| VaultVerbs.SetAutoloadEach | internal/vaultops/session.go:47-69 | the loop of SetAutoload on the running agent computes that run, each change with its own clock and save outcome |
| VaultVerbs.SaveFailingMidway | internal/vaultops/keys.go:54-82 | a save that fails at the second removal is reported there, with the first reported done |
| VaultVerbs.UnsavedRemovalLeaves | internal/vault/agent.go:172-189 | after that the agent has neither identity, and the file has lost the first and kept the second |
| VaultVerbs.RemovingTwiceFailsAtSecond | internal/vaultops/keys.go:62-79 | naming one identity twice removes it and then fails |
| PasswordGuard.PrunedMapAnswersAsHistory | internal/server/password_guard.go:104-138 | the self-pruning map answers lockedOut and nowLockedOut as the whole history does |
| PasswordGuard.RunLengthIsLongest | internal/server/password_guard.go:21-25 | the run counted is the longest suffix of failures whose gaps are under the lockout |
| PasswordGuard.AnnouncedExactlyWhenLockoutStarts | internal/server/password_guard.go:117-131 | a failure is announced exactly when it takes its host from free to locked out |
| PasswordGuard.RecordingLeavesOthers | internal/server/password_guard.go:117-138 | recording or forgetting one host changes no other host's answer |
| PasswordGuard.PasswordGuard.RecordFailure | internal/server/password_guard.go:117-131 | the loop over the map and the count compute that record |
| PasswordGuard.PasswordGuard.IsLockedOut | internal/server/password_guard.go:106-111 | the lookup computes that answer |
| GuardRuns.ChecksAreCappedAndRefusalsUnchecked | internal/server/password_guard.go:80-102 | in every interleaving slots held equal attempts holding one, never above the cap, and refused attempts never reach the source |
| GuardRuns.TwoChecksAtATime | internal/server/password_guard.go:11-15 | as shipped no more than two checks are in flight |
| GuardRuns.OutcomesAreEarned | internal/server/password_guard.go:77-102 | in every interleaving an attempt is accepted only if the source accepted it, rejected only if it refused, and turned away only if its host was locked out at the gate or its client left |
| GuardRuns.OutcomesAreFinal | internal/server/password_guard.go:77-102 | what an attempt paused with is what it returns |
| GuardRuns.EveryVerdictIsRecorded | internal/server/password_guard.go:95-101 | in every interleaving a host's history has exactly one success for each password accepted and one failure for each refused |
| GuardRuns.LockoutAdmitsOnlyThoseWaiting | internal/server/password_guard.go:80-92 | while a lockout runs, checks started for the host are at most those already waiting past the gate |
| GuardRuns.SomeAttemptCanStep | internal/server/password_guard.go:80-102 | while any attempt is unfinished some attempt can step |
| GuardRuns.InterleavingsEnd | internal/server/password_guard.go:80-102 | without new arrivals every interleaving ends within the steps left |
| GuardRuns.GuessingIsRateLimited | internal/server/password_guard.go:80-131 | if at most m of a host's attempts are past the gate at once, limit + m consecutive failures span a lockout and n failures take at least floor((n-1)/(limit+m-1)) lockouts |
| GuardRuns.TheBoundIsMet | internal/server/password_guard.go:80-131 | for every limit and m there is an interleaving with at most m attempts overlapping and limit + m - 1 failures in one instant |
| GuardRuns.GuessesAMinute | internal/server/password_guard.go:21-25 | with the shipped limits, n failures take at least floor((n-1)/(4+m)) minutes |
| GuardRuns.SixAtOnce | internal/server/password_guard.go:80-131 | with the shipped limits, a concrete interleaving with six failures of one host in one instant, at most two attempts overlapping |
| GuardRuns.EachLockoutAnnouncedOnce | internal/server/password_guard.go:73-131 | if a host's attempts do not overlap, no failure is recorded during a lockout, and a failure is announced exactly when the host is locked out after it |
| GuardRuns.AnnouncementIsReturned | internal/server/password_guard.go:73-102 | under that condition an attempt returns that it started a lockout exactly when it did |
| LockedKeyring.UnlockedIsTransparent | internal/agent/kdf_locked_keyring.go:37-167 | after any trace of calls the inner agent is where its own run over exactly the requests made while unlocked, and the extensions, leaves it, its answers are that run's in order, and the lock is as if nothing were inside |
| LockedKeyring.AnsweredFromInsideIff | internal/agent/kdf_locked_keyring.go:86-167 | in any trace a call gets the inner agent's answer if and only if it is a request made while unlocked, or an extension |
| LockedKeyring.LockedAnswers | internal/agent/kdf_locked_keyring.go:86-155 | at any point of any trace, no keys is the answer exactly to a list while locked, and refused as locked exactly to any other request but an extension, and to a lock, while locked |
| LockedKeyring.LockingAnswers | internal/agent/kdf_locked_keyring.go:51-84 | exactly when a direct lock or unlock is done, not locked, the wrong passphrase, or without randomness |
| LockedKeyring.UnlockedLocksOnlyBy | internal/agent/kdf_locked_keyring.go:51-66 | an unlocked wrapper is locked by a lock alone, and then holds its salt and the key derived with it |
| LockedKeyring.OtherMessagesAreRefused | internal/agent/kdf_locked_keyring.go:175-188 | exactly which messages are refused as malformed or unknown; they change nothing |
| LockedKeyring.LockedChangesOnlyBy | internal/agent/kdf_locked_keyring.go:50-167 | while locked nothing changes but by the right passphrase or an inner extension |
| LockedKeyring.LockThenUnlockRestores | internal/agent/kdf_locked_keyring.go:50-84 | locking, any calls without the passphrase, then unlocking restores the exact earlier state |
| LockedKeyring.ExtensionsReachALockedInner | internal/agent/kdf_locked_keyring.go:160-167 | a concrete inner agent that changes while locked |
| LockedKeyring.LockReasonsReachClient | internal/agent/kdf_locked_keyring.go:175-204 | the client learns whether it was locked, not locked, given the wrong passphrase, or without randomness |
| LockedKeyring.KDFLockedKeyring.LockWith | internal/agent/kdf_locked_keyring.go:51-66 | holds a fresh verifier and is locked, or names why not |
| LockedKeyring.KDFLockedKeyring.UnlockWith | internal/agent/kdf_locked_keyring.go:69-84 | on the right passphrase zeroes and drops the verifier, else changes nothing |
| LockedKeyring.KDFLockedKeyring.ForwardRequest | internal/agent/kdf_locked_keyring.go:88-155 | the gate every forwarded request passes |
| LockedKeyring.KDFLockedKeyring.HandleOp | internal/agent/kdf_locked_keyring.go:175-188 | serves lock and unlock, and reports every other op unsupported |
| WordWrap.GreedyIsOptimal | internal/cli/vault.go:383-406 | no cut of the words into lines that fit uses fewer lines |
| WordWrap.Wrap | internal/cli/vault.go:383-406 | the lines hold the words in order, each fits or is one word, and none fewer would do |
| WordWrap.WrapWords | internal/cli/vault.go:388-405 | the loop produces the greedy lines |
| TailLines.Tail | internal/cli/server_logs.go:76-89 | a suffix of the text equal to its last n lines, final newline or not, or all of it |
| TailLines.TailStart | internal/cli/server_logs.go:80-88 | the loop stops where exactly n lines remain, or at the start |
| TailLines.LinesSplit | internal/cli/server_logs.go:80-88 | cutting after a newline cuts the lines there |
| Reload.ApplyDiff | internal/cli/reload.go:159-199 | the agent ends with what reconciling leaves, in whatever order the maps are walked, refusals skipped |
| Reload.ReconcilingSettles | internal/cli/reload.go:173-194 | if every call succeeds that is the live desired keys and the desired ones with private halves, and a second time changes nothing |
| Reload.ReloadRemoves | internal/cli/reload.go:113-131 | exactly the identities a vault agent lists that are neither among the key paths nor in the vault file as it opened are removed |
| Reload.ReloadRemovesNothingIff | internal/cli/reload.go:113-131 | nothing is removed if and only if every listed identity is among the key paths or in the opened file; a file equal to the agent's store suffices |
| Reload.MissingFileEmptiesTheAgent | internal/vault/store.go:64-70 | without key paths, a missing vault file, like an unreadable one, makes a reload remove every listed identity |
| Reload.ReconcilesAVaultAgent | internal/cli/reload.go:173-194 | on the vault machine, the adds and removals reconciling decides on, in any order and with refusals, take what is listed to the reconciled set |
| Reload.ReconcilingReplacesUnlisted | internal/vault/agent.go:125-168 | adding a stored but unlisted key keeps its place, lists it for the session, and turns off its autoload and clears its file path |
| Reload.DesiredKeys | internal/cli/reload.go:101-134 | the loops compute the desired keys |
| Reload.PathKeysExactly | internal/cli/reload.go:103-112 | a path's key is desired under its fingerprint, the last one read standing |
| Reload.WithVaultExactly | internal/cli/reload.go:120-132 | vault identities join the desired keys without replacing any |
| Reload.VaultKeysExactly | internal/cli/reload.go:120-132 | a key only the vault asks for carries the comment and public key of a vault identity, and no private half |

## Left out

- Store.VaultStore.AllIdentities: copies identities; entities are values here, so that callers cannot reach the store's own slices is not a separate statement.
- Store.VaultStore.Save: assumes that what is at the vault path beforehand is nothing or a complete durable file, as an earlier Save leaves it.
- Disk.FileSystem.Rename: the new name is durable at once. The source never syncs the directory, so after a crash the old file may still be at the path; it is a complete one either way.
- Reload.ReconcilesAVaultAgent: assumes no save fails on the way; what a failed save leaves is AddKeyWithAutoload's and Remove's own contract.
- RunningAgent.VaultAgent.AddKeyWithAutoload: the wiping of the plaintext key buffer is not modelled; only the master key's buffer is.
- LockedKeyring.KDFLockedKeyring.ForwardRequest: one gate stands for the eight methods that share it.
- Wire.BuildAddKeyOptsPayload: reading the key file is not modelled; its bytes are an argument.
- OpDispatch.HandleOp: decoding and payload parsing come first as one function, then one call on the agent, where the source does both inside each case.
- A nil Ed25519 pointer and Ed25519 keys of the wrong length: the library panics on them before the vault's own code.
- SignWithFlags: the choice of signature algorithm is library behaviour after the same signer lookup as Sign.
- The legacy "query" extension and unsupported extension names of the vault agent: constant answers.
- Init's passphrase policy: a predicate, since it counts Unicode characters.
- Opening a connection (vault path checks, attaching an agent, the transparent unlock prompt): branches without state of their own.
- Adding several key files: the same loop as the other verbs, over paths.
- RemoveByFingerprint and the filepath registry: a search over List followed by Remove.
- Time that leaves the range of time.Duration, and JSON encoding: the file holds values.
- Following a log while it is written: depends on rotation timing outside the program.
- The pause after a refusal: a step with no effect on the guard.
- Terminal screens, themes, command-line parsing, configuration files, version checks and the SSH server's sessions.
