# git-remote-e2ee: a verified model

`git-remote-e2ee` keeps a Git repository in storage it does not trust: a
directory, or a branch of an ordinary Git remote (the *carrier*). Everything is
encrypted. Each publication is a *generation*: a signed manifest that names the
previous manifest by content ID, the refs, the new packs, the access policy and
envelopes that carry the generation key to every active reader. A machine pins
what it accepted in a *continuity floor*.

This project models that logic in Dafny and proves what it promises.
`dafny verify dfyconfig.toml` checks all of it.

## What is proved

- **Accepted chains.** The two passes of the chain walk accept exactly the
  authentic chains (`AcceptedIsAuthentic`, `AuthenticIsAccepted`). Such a chain
  has one entry per generation, one history per head ID, a conserved pack count
  and no repeated pack; several error exits of the code are unreachable.
- **Authorization.** Over whole chains only active writers and administrators
  sign, records are permanent, and a revocation takes effect exactly at its stamp.
- **Sealing.** Everything the operations build is accepted, opens to what was
  sealed, and stays readable for every active reader, over all sequences of
  operations (`RepositoryStaysReadable`).
- **Key reach.** A device derives exactly the generation keys up to the last
  generation that addresses it (`KeyReachAlongChain`), by a symbolic deduction
  system over everything ever stored, race losers included.
- **Floor safety.** Against storage that may show anything at each read, all
  chains one machine accepts or publishes lie on one line (`FloorSafety`).
- **Recovery.** `Recover` publishes under an exact condition, and without
  `discard_newer` drops nothing that can be authenticated.
- **Shared history.** With honest storage no interleaving of writers loses a
  publication, and branches only move forward (`NoLostUpdate`,
  `BranchesMoveForward`).
- **Carrier publication.** A fast-forward push refines an atomic
  compare-and-swap of HEAD, the published tree keeps all objects of the base, and
  the reads after a publication, a failure or a refresh are characterized exactly.
- **Objects and packs.** The frontier connectivity check equals the full one, and
  the packs above any closed generation suffice for the head
  (`LaterPacksSuffice`).
- **Framing.** Pack streams, carrier chunks and all signed or authenticated byte
  strings round-trip, are unambiguous, and are refused in any other form.
- **History search.** Looking only at commits that changed a path finds a copy
  if and only if any commit holds one, within an exact byte budget.
- **Crash consistency.** At every crash point of a publication a surviving HEAD
  is whole, beside FORMAT, over a complete chain (`PublishGeneration`,
  `RestartIsSafe`), which every reader opens again (`CrashLeavesOpenableChain`).

## How to read it

| file | component |
|---|---|
| `Prelude.dfy` | machine integers, failures, encoded texts |
| `Policy.dfy`, `Manifests.dfy` | access policies; manifests, envelopes, links and their checks |
| `Chain.dfy`, `Authenticity.dfy`, `Authorization.dfy` | the chain walk and what every accepted chain guarantees |
| `Sealing.dfy`, `Operations.dfy`, `KeyReach.dfy` | building generations, the operations, key confinement |
| `Continuity.dfy`, `Recovery.dfy`, `SharedHistory.dfy` | the floor, recovery, concurrent machines |
| `GitGraph.dfy`, `Push.dfy`, `Checkout.dfy` | Git reachability, push batches, import progress |
| `Encodings.dfy`, `PackStream.dfy` | byte encodings and pack streams |
| `CarrierChunks.dfy`, `CarrierReads.dfy`, `Carrier.dfy`, `HistorySearch.dfy` | chunked objects, reads over a checkout, publication and history in the carrier |
| `Persist.dfy`, `Durability.dfy`, `ChainStorage.dfy` | durable files and directories, crash consistency of the directory backend, the chains it holds |

Chains are sequences with the head first; the tail of an accepted chain is its
parent's chain. A content ID is the digest of a stored object and is modelled as
that object, so equal IDs mean equal bytes. Boxes, envelopes and signatures are
values of free datatypes that open or verify under exactly their own key,
recipient, associated data and message. `Encodings.dfy` proves that the byte
strings behind these values determine them. A text in JSON or Base64 is its
value plus a form, so different texts may decode to one value.

Assumed, and stated as conditions where they are used: SHA-256 and key
commitments do not collide; encryption, HPKE, HKDF and Ed25519 are ideal; drawn
keys, seeds and encapsulated keys are fresh; pack IDs of randomized ciphertext
do not repeat; `git rev-list`, `git pack-objects` and `git push` keep their
contracts; file locks exclude. The crash guarantee of `PublishGeneration` takes one
more condition, `Grounded`: no existing directory above the new objects is still
unflushed. It holds after every machine crash (`RestartIsSafe`), and a successful
publication leaves no such directory behind. A process killed between `create_dir`
and the flush does, and the code never flushes a directory that exists.

## Results where the code and its promises differ

- `initialize` with a key file made for another owner's root publishes a genesis
  head that every client refuses. The exact condition is
  `Operations.InitializeIsAuthenticIff`.
- The format documentation under docs/ says that listing an authenticated
  manifest does not advance the floor; `observe_manifest`
  (src/repository.rs:666-689) advances it. The model follows the code.
- The comment on `restore_checkout` (src/storage.rs:1279-1280) says that every
  file the failed publication added or changed is removed. Untracked files and
  HEAD are. A tracked file that was replaced stays (`RepairedCopySurvives`), and so
  does the emptied directory of a staged object, which then hides the object of
  a later commit (`EmptiedDirectoryHides`). The exact conditions are in
  `CarrierReads.RestoredReads`.
- `create_dir_all_durable` succeeds over directories that a killed process left
  unflushed, and the path is then not durable (`KilledProcessLeavesLoose`). The
  exact condition is in `Persist.CreateDirAllDurable`; `StoreObject` carries it over
  to objects and `LooseDirectoryLosesObject` to a durable HEAD.
- `ChunkReader::read` into an empty buffer skips to the end of the object. No
  caller does this; `CarrierChunks.ChunkReader.Read` states it.

## Model

| member | source | states |
|---|---|---|
| `Policy.ValidateDevices` | src/policy.rs:356-379 | the registry loop accepts exactly the registries in which every record is well formed, label rules included, no two records share an ID and no two active records share a name |
| `Manifests.ValidatePackDelta` | src/manifest.rs:890-904 | accepts exactly the deltas whose packs are nonempty, belong to this generation, carry ordinals 0, 1, 2, … and have pairwise distinct IDs |
| `Manifests.ValidateEnvelopeLayout` | src/manifest.rs:865-888 | accepts exactly the lists of well-sized envelopes with strictly increasing encapsulated keys |
| `Manifests.ValidateEnvelopeAudit` | src/manifest.rs:727-788 | accepts exactly the audits that match the envelopes one to one, re-derive every recipient's envelope from its seed, and name each active reader once and nobody else |
| `Chain.VerifyOpenedChain` | src/repository.rs:1432-1496 | the second pass, a loop from genesis to head, equals the recursive meaning of a verified chain, including the check of pack IDs over the whole chain |
| `Chain.ReadParent` | src/repository.rs:1406-1425 | one step of the walk reads and opens the named predecessor with the key the child's link holds; the "header changed" exit is unreachable |
| `Chain.ChainFrom` | src/repository.rs:1375-1428 | for every storage the walk ends and returns exactly the specified chain or error; its cycle exit and its "above generation zero" exit are unreachable |
| `Authenticity.AcceptedIsAuthentic` | src/repository.rs:1375-1496 | whatever storage serves, a returned chain is authentic: each entry opens from its content ID, links to the next, and passes every check, and its head is the requested ID |
| `Authenticity.AuthenticIsAccepted` | src/repository.rs:1375-1496 | conversely, storage that serves an authentic chain is accepted by every device that unwraps the head's key, and the same chain comes back |
| `Authenticity.AuthenticSuffix` | src/repository.rs:1375-1428 | every older part of an accepted chain is itself an accepted chain |
| `Authenticity.ChainShape` | src/repository.rs:1375-1428 | an accepted chain has exactly generation + 1 entries, entry by entry one generation older, each naming the content ID of the next |
| `Authenticity.IdsNeverRepeat` | src/repository.rs:1385-1400 | no content ID occurs twice in an accepted chain |
| `Authenticity.SameHeadSameChain` | src/repository.rs:1375-1496 | two accepted chains with the same head ID are equal, whoever opened them |
| `Authenticity.SameIdSameHistory` | src/repository.rs:1375-1496 | two accepted chains that share one ID anywhere share everything older |
| `Authenticity.PackCountConserved` | src/manifest.rs:118-124 | the head's total pack count equals the sum of all deltas of the chain |
| `Authenticity.PackIdsNeverRepeat` | src/repository.rs:1436-1444 | no pack ID occurs twice in an accepted chain, within one delta or across generations |
| `Authenticity.OpenAllPacks` | src/repository.rs:779-791 | counts every pack of the chain, or fails if one does not open |
| `Authenticity.VerifyCiphertext` | src/repository.rs:779-795 | on an accepted chain it succeeds exactly when every pack opens; the "pack count mismatch" exit is unreachable |
| `Authorization.ChainIsAuthorized` | src/manifest.rs:551-568 | over a whole accepted chain, every writer entry is signed by an active writer of the inherited policy, every policy entry by an active administrator of its parent, and genesis by the owner that the repository root names |
| `Authorization.PoliciesValid` | src/policy.rs:225-275 | every policy of an accepted chain has a valid registry, the root that its chain was opened for and the generation its manifest states |
| `Authorization.RegistryIsPermanent` | src/policy.rs:225-275 | along an accepted chain no device record vanishes, and keys, names and revocations never change |
| `Authorization.GenerationsGrow` | src/policy.rs:225-240 | policy generations never fall from an older entry to a newer one |
| `Authorization.StampInPast` | src/policy.rs:253-262 | a revocation stamp lies between 1 and the generation of the policy that carries it |
| `Authorization.RevocationTakesEffectAtStamp` | src/policy.rs:253-262 | wherever the chain lists a device that some entry shows as revoked, it is revoked if and only if that policy is at or past the stamp |
| `Authorization.RevokedDeviceSignsNothingLater` | src/manifest.rs:551-568 | after an entry whose policy revokes a device, no later entry of the chain is signed by it |
| `Sealing.PaddedCount` | src/manifest.rs:666-676 | the padded envelope count is the least power of two that is at least four and at least the number of readers |
| `Sealing.BuildEnvelopes` | src/manifest.rs:655-725 | the push, pad and sort loops produce the specified list: every active reader's pair in order, the padding, sorted by encapsulated key |
| `Sealing.PairsAreGood` | src/manifest.rs:655-725 | with distinct encapsulated keys the built list is strictly increasing, has the padded length, and holds each reader's own envelope and no other recipient's |
| `Sealing.GoodPairsLayout` | src/manifest.rs:865-888 | every list that sealing builds passes the layout check |
| `Sealing.GoodPairsAudit` | src/manifest.rs:727-788 | every list that sealing builds passes the audit check |
| `Sealing.SealSucceeds` | src/manifest.rs:234-329 | sealing a valid manifest with distinct draws cannot fail, and its header passes the public-header check |
| `Sealing.SealedOpens` | src/manifest.rs:419-516 | opening sealed bytes with the generation key gives back exactly the manifest, header, content and signature that were sealed |
| `Sealing.SealedVerifies` | src/manifest.rs:518-585 | what an authorized device sealed passes every check of `verify_manifest` |
| `Sealing.SealAndStoreSucceeds` | src/repository.rs:1562-1602 | a well-placed manifest sealed by an authorized device is always stored, and the entry read back carries it |
| `Sealing.ReaderUnwraps` | src/manifest.rs:391-417 | the audit guarantees that every active reader unwraps exactly the committed generation key by trial decryption |
| `Sealing.EveryReaderOpensTheChain` | src/repository.rs:1375-1496 | any active reader of an accepted chain's head opens the whole chain and gets back the same entries |
| `Operations.InitializeSucceeds` | src/repository.rs:332-377 | initialization succeeds exactly if storage has no head, this machine has no floor and the owner name is valid, and stores the genesis manifest of that policy |
| `Operations.InitializeIsAuthenticIff` | src/repository.rs:354-377 | the genesis head is accepted by clients if and only if the key file's root is the root of its own keys |
| `Operations.CollaboratorCannotInitialize` | src/repository.rs:354-377 | a concrete key made for another owner's repository: initialization succeeds and publishes a head that no client accepts |
| `Operations.HeadFits` | src/manifest.rs:727-788 | no accepted head has more than 4096 active readers, so its successor can always be sealed |
| `Operations.PublishIsAuthentic` | src/repository.rs:552-636 | over an accepted head, publication succeeds exactly when the signer is an active writer, no counter overflows and a new pack is not empty; then the extended chain is accepted and its head is the manifest that was built |
| `Operations.SuccessorSucceeds` | src/policy.rs:119-161 | the next policy is created exactly when the changed registry is valid, and what is created parses back to itself |
| `Operations.ChangeIsAuthentic` | src/repository.rs:431-455 | a policy change that keeps every record and stamps new revocations is accepted on top of any accepted chain |
| `Operations.AddIsAuthentic` | src/repository.rs:379-398 | adding a device succeeds exactly for an administrator and a new, well-formed, distinctly named device of this root, if at most 4096 readers result and no counter overflows; then the extended chain is accepted and lists it |
| `Operations.RevokeKeepsRoles` | src/repository.rs:400-429 | the "last active reader" and "last active administrator" refusals fire exactly when no other active reader or administrator would remain |
| `Operations.RevokeIsAuthentic` | src/repository.rs:400-429 | revoking succeeds exactly when an administrator names an active device, another reader and another administrator remain and no counter overflows; the device is stamped with the new policy generation |
| `Operations.OperationExtends` | src/repository.rs:1509-1602 | every successful push, addition, revocation or recovery on an accepted chain yields an accepted chain |
| `Operations.RunIsAuthentic` | src/repository.rs:332-648 | over every sequence of operations, whatever succeeds or fails, the chain stays accepted |
| `Operations.RepositoryStaysReadable` | src/repository.rs:332-648 | from an owner's initialization on, after any sequence of operations, every active reader of the head opens the whole chain from any storage that serves it |
| `Operations.AcceptedChainsExist` | src/repository.rs:332-648 | the operations build accepted chains of every length that a generation number can count, so the statements about accepted chains are not empty |
| `KeyReach.DeductionIsSafe` | src/manifest.rs:587-645 | no sequence of deductions from safe terms (opening boxes, decapsulating, deriving, joining, sealing) yields a protected key or seed |
| `KeyReach.Confined` | src/manifest.rs:655-725 | from everything ever stored plus its private keys, a coalition derives no generation key it has no path to |
| `KeyReach.AddressedKnows` | src/manifest.rs:391-417 | a coalition that holds an active reader's private key derives that generation's key |
| `KeyReach.AncestorsKnown` | src/manifest.rs:608-645 | whoever derives a generation key derives the keys of all its ancestors |
| `KeyReach.KeyReach` | src/manifest.rs:587-725 | over every forest of sealed manifests, a coalition derives a generation key if and only if that generation or a descendant is addressed to one of its devices |
| `KeyReach.KeyReachAlongChain` | src/manifest.rs:587-725 | along a chain a device derives exactly the keys of generation 0 up to the last generation whose policy lists it as an active reader |
| `KeyReach.RevokedReachesNothingLater` | src/policy.rs:253-262 | from the generation that revokes every record with a wrapping key on, the holder of that key derives a generation key if and only if that or a later generation lists the same key again under a new device ID |
| `Continuity.FloorGuard.AdvanceTo` | src/continuity.rs:87-106 | states the exact outcome for every stored and offered floor; the floor never falls and a refusal changes nothing |
| `Continuity.PinnedChain` | src/repository.rs:315-327 | a chain is handed out only if it passes the pin check, on the first view or after one refresh |
| `Continuity.PinnedIffExtends` | src/repository.rs:1731-1757 | against a floor taken from an accepted chain, the pin check passes an accepted chain if and only if it contains that chain |
| `Continuity.AdvanceNeverRefused` | src/continuity.rs:87-106 | after the pin check under the same guard every refusal of `advance` is unreachable and the floor ends at the new head |
| `Continuity.StepKeepsConsistent` | src/repository.rs:315-327 | every permitted read, publication, recovery or initialization keeps all accepted chains on one line ending at the floor |
| `Continuity.RunKeepsConsistent` | src/repository.rs:315-479 | the same over every finite run of one machine against arbitrary storage |
| `Continuity.FloorSafety` | src/repository.rs:1731-1757 | over every run, each chain accepted or published contains every earlier one, and neither generation falls |
| `Continuity.RollbackIsRefused` | src/repository.rs:1731-1757 | an authentic chain that does not contain everything this machine ever accepted is refused |
| `Continuity.PinnedHead` | src/repository.rs:470-479 | returns the pinned head and moves the floor to it, or fails and leaves the floor; the error exit of `advance` is unreachable |
| `Recovery.MissingObjectIsReported` | src/repository.rs:1375-1428 | an object missing anywhere on the path, the head or any ancestor, is what the opening reports, with exactly the causes of that read |
| `Recovery.MissingObjectIsUnavailable` | src/repository.rs:1697-1719 | a head with an unavailable object anywhere on its path is classified unavailable |
| `Recovery.BadContentIsInvalid` | src/repository.rs:1697-1729 | if storage serves every object the walk asks for and this device unwraps the head, a failed opening is classified invalid, or unsupported exactly if it met an unknown format |
| `Recovery.InvalidExactly` | src/repository.rs:1697-1729 | a failed opening is classified invalid if and only if no object on the path is missing, this device could unwrap the head, and the format is supported |
| `Recovery.UnopenableHeadIsNotInvalid` | src/repository.rs:1697-1729 | a head that this device cannot unwrap is never classified invalid, so it is never replaced |
| `Recovery.ScanHistory` | src/repository.rs:1089-1143 | collects exactly the past heads that authenticate and descend from the floor, and goes on exactly when every past head can be decided |
| `Recovery.FindConflict` | src/repository.rs:1144-1156 | reports a conflict exactly when some two descendants are incomparable |
| `Recovery.ConflictIsFork` | src/repository.rs:1144-1170 | the conflict flag means exactly that two offers lie on different branches |
| `Recovery.OffersAreOneLine` | src/repository.rs:1171-1180 | without a conflict the sorted offers are totally ordered by ancestry and the last contains all others |
| `Recovery.DefaultDropsNothing` | src/repository.rs:1171-1184 | the default base contains every past head that this device can authenticate |
| `Recovery.CollectOffers` | src/repository.rs:1072-1184 | offers come back exactly when every past head is decided and none forks, and they are exactly the floor and its authenticated descendants |
| `Recovery.SelectBase` | src/repository.rs:1189-1241 | a base is selected exactly when the options, the device's role and the restorable objects allow it |
| `Recovery.Recover` | src/repository.rs:797-1275 | publication is allowed if and only if the head is proven invalid, the floor opens and lies in history, history shows one line, and the options name an allowed base; the base is the floor or a descendant of it, and without `discard_newer` contains every authenticated past head |
| `GitGraph.ResolveTagChain` | src/git.rs:472-503 | on every finite object store the tag walk ends, and resolves to the same target or failure as the specification |
| `GitGraph.FrontierWalkEqualsFull` | src/git.rs:430-463 | when the frontier's closure is present, the walk that stops at the frontier accepts exactly if everything reachable from the roots is present |
| `GitGraph.ResolveRefs` | src/git.rs:401-428 | the ref loop passes exactly if every ref resolves to an object of an allowed kind, and collects exactly the commit targets |
| `GitGraph.EnsureRefsConnectedSince` | src/git.rs:391-465 | when everything reachable from the verified refs is local, the incremental check passes if and only if the full check of the refs would and the verified refs still resolve |
| `Push.CheckBatch` | src/repository.rs:513-543 | outcomes match requests one to one, a request is accepted exactly if it is the first for its destination and its preflight passes, and the next refs are the parent's with exactly the accepted changes |
| `Push.PushBatch` | src/repository.rs:492-550 | additionally, a batch is published exactly if it is no dry run and changes the refs, and the refs to pack are exactly the changed ones |
| `Push.OnlyFirstPasses` | src/repository.rs:513-525 | at most one request per destination is accepted |
| `Push.EveryTipCovered` | src/repository.rs:567-607 | every object the successor's refs name is named by the parent or is a root of the new pack |
| `Push.MainIsNeverRemoved` | src/repository.rs:1607-1649 | `refs/heads/main`, once present, is in every successor |
| `Push.BranchMovesForward` | src/repository.rs:1607-1649 | a branch that no accepted request forces or deletes stays, or moves to a descendant |
| `Push.TagStays` | src/repository.rs:1607-1649 | a tag that no accepted request forces or deletes keeps its object |
| `Push.OrderDoesNotMatter` | src/repository.rs:513-543 | a batch without repeated destinations means the same in every order |
| `SharedHistory.StepKeepsGood` | src/repository.rs:1531-1558 | every load or commit of any machine keeps the shared head accepted and every loaded view a stage of it |
| `SharedHistory.NoLostUpdate` | src/repository.rs:492-550 | over every interleaving of loads and commits, each new head names the replaced head as its parent, and every later head chain contains every earlier one |
| `SharedHistory.BranchesMoveForward` | src/repository.rs:1607-1649 | over every such run, a branch tip moves only to descendants as long as no accepted push forces or deletes it |
| `SharedHistory.OperationsArePermitted` | src/repository.rs:431-455 | pushes, membership changes and recoveries that pass the floor check are steps of the floor-safety run |
| `Checkout.UnchangedRefsArePacked` | src/repository.rs:1651-1682 | policy transitions and recoveries, which keep the refs, need no pack |
| `Checkout.PackedChainGrows` | src/repository.rs:567-607 | appending a push that packs its new reachability, a transition or a recovery keeps the chain packed |
| `Checkout.LaterPacksSuffice` | src/repository.rs:723-742 | from a store complete for the refs of any generation, the packs of the later generations alone make it complete for the head's refs |
| `Checkout.ImportChainPacks` | src/repository.rs:723-742 | imports exactly the packs of the entries newer than the recorded generation |
| `Checkout.Repository.constructor` | src/repository.rs:164-180 | a checkout without a progress file has imported nothing and verified nothing |
| `Checkout.Repository.Observe` | src/repository.rs:666-689 | records the shown head as imported exactly if its refs pass the connectivity check; recorded progress stays closed under reachability |
| `Checkout.Repository.Import` | src/repository.rs:691-718 | progress stays closed whatever happens; on a packed chain with well-typed refs every import succeeds, and while the recorded refs resolve it reads only the later packs |
| `Checkout.Repository.RecordPublication` | src/repository.rs:638-646 | after a push the verified refs become the successor's exactly if they were the parent's and the repository is complete, and stay closed |
| `Encodings.LittleEndianRoundTrip` | src/manifest.rs:944-947 | a value that fits its width is read back from its little-endian bytes |
| `Encodings.FieldIsReadable` | src/manifest.rs:944-947 | a length-prefixed field shorter than 2^32 bytes is read back unambiguously from the front of any byte string |
| `Encodings.AadInjective` | src/manifest.rs:914-942 | two associated data strings, of any purposes, are equal if and only if purpose and all inputs are |
| `Encodings.SignedBytesInjective` | src/manifest.rs:906-912 | signed bytes are equal if and only if header, sealed content and body digest are |
| `Encodings.SigningMessageInjective` | src/crypto.rs:153-159 | a signed message determines its domain and digest, so a manifest signature is never a policy signature |
| `Encodings.SubkeyInfoInjective` | src/crypto.rs:315-336 | the HKDF input determines root, generation, kind and ordinal |
| `PackStream.Source.ReadExact` | src/crypto.rs:552-556 | with any pattern of short and interrupted reads it returns exactly the next bytes, or fails exactly if too few are left |
| `PackStream.Source.ReadChunk` | src/crypto.rs:447-465 | with any pattern of short and interrupted reads it returns a full chunk or all that is left |
| `PackStream.StreamSize` | src/crypto.rs:467-533 | a sealed stream has 31 + n + 16 * ceil(n / 1 MiB) bytes, exact multiples included |
| `PackStream.SealPackStream` | src/crypto.rs:467-533 | for every read pattern it succeeds exactly for a nonempty plaintext of fewer than 2^32 - 1 segments, writes the sealed stream, and reports its digest and sizes; the size overflow exit is unreachable |
| `PackStream.DecodesExactly` | src/crypto.rs:575-606 | segment decoding accepts exactly the sealed segments of a plaintext of the stated size |
| `PackStream.OpenSegments` | src/crypto.rs:575-616 | the segment loop and the trailing-data check accept exactly what decoding accepts; its length and size mismatch exits are unreachable |
| `PackStream.OpenPackStream` | src/crypto.rs:535-634 | for every read pattern it succeeds exactly on a stream that seals some plaintext of the stated size under this key and associated data and has the stated digest, and writes that plaintext |
| `PackStream.StreamInjective` | src/crypto.rs:438-533 | a stream determines its key, nonce, associated data and plaintext |
| `PackStream.OnlyTheSealedPackOpens` | src/crypto.rs:467-634 | with the digest of a sealed pack, opening accepts that very stream under exactly its key, associated data and size, and nothing else |
| `CarrierChunks.NamesOrdered` | src/storage.rs:842-848 | zero-padded chunk names sort in chunk order |
| `CarrierChunks.SplitIsUnique` | src/storage.rs:914-939 | an object has exactly one canonical split into chunks |
| `CarrierChunks.CarrierObjectStage.constructor` | src/storage.rs:1328-1344 | a new stage is empty |
| `CarrierChunks.CarrierObjectStage.Write` | src/storage.rs:853-880 | whatever the split into writes, the staged chunk files hold the concatenation as full chunks and an open rest; a chunk name never exists already |
| `CarrierChunks.CarrierObjectStage.Publish` | src/storage.rs:889-906 | succeeds exactly for a nonempty object whose target is absent or already holds a canonical split of it, and leaves one there |
| `CarrierChunks.ValidatingObjectStage.Write` | src/storage.rs:69-87 | a write is refused exactly if it would pass the limit of the kind, and then changes nothing |
| `CarrierChunks.ValidatingObjectStage.Finish` | src/storage.rs:89-98 | publishes exactly a nonempty object under its own digest, in at most 4096 chunks, to a target that is absent or already holds it |
| `CarrierChunks.ValidatedChunkPaths` | src/storage.rs:914-939 | accepts a directory exactly if its sorted entries are the dense chunk names with canonical sizes |
| `CarrierChunks.DirectoryAcceptsExactly` | src/storage.rs:914-939 | in any listing order the directory check accepts exactly the stored objects, and yields their bytes |
| `CarrierChunks.ChunkReader.Read` | src/storage.rs:676-699 | returns the next bytes of the object and nothing only at its end; a read into an empty buffer loses the rest |
| `CarrierChunks.ReaderId` | src/storage.rs:600-611 | hashes exactly the unread bytes, with any pattern of short reads |
| `CarrierChunks.ParseChunkListing` | src/storage.rs:1736-1775 | accepts a tree listing exactly if it holds 1 to 4096 regular blobs at the dense chunk paths, and returns them in order |
| `CarrierChunks.GitChunkReader.Read` | src/storage.rs:763-805 | fails exactly at a chunk of the wrong type or size, and otherwise returns the next bytes |
| `CarrierChunks.GitChunkReader.ReadToEnd` | src/storage.rs:745-805 | reading to the end succeeds exactly if every blob has its canonical size, and yields their concatenation |
| `CarrierChunks.ReadCommitted` | src/storage.rs:1347-1372 | a committed object is read back as its bytes, and whatever is read back is a committed object |
| `CarrierChunks.StoredCommits` | src/storage.rs:2249-2288 | committing a stored object's files, in any order, makes a committed object with the same bytes |
| `Carrier.OnlyBaseOrNew` | src/storage.rs:1218-1277 | a tip that moved forward from the base and that the new commit would fast-forward is the base or the new commit |
| `Carrier.HistoryIsOneLine` | src/storage.rs:1218-1277 | a branch that only accepts fast-forwards keeps every earlier tip as an ancestor |
| `Carrier.GitStorage.CommitAndPush` | src/storage.rs:1218-1277 | success means the branch moved from exactly the base to the new commit; a conflict is reported only if the observed tip is neither |
| `Carrier.GitStorage.PublishCheckoutHead` | src/storage.rs:1199-1216 | additionally, after a failure with a successful restoration branch and index are the base's, and the reads are the base's under the exact conditions of the restoration |
| `Carrier.GitStorage.RestoreCheckout` | src/storage.rs:1281-1324 | afterwards branch and index are the target's; reads yield the target's bytes if and only if no tracked file or chunk was replaced so as to matter and no emptied object directory hides a readable object, and fail as the target's if and only if no directory was made for an object it lacks |
| `CarrierReads.DirectoryOutcome` | src/storage.rs:914-939 | reading an object directory of the working tree, as the model defines it, is what the check of its listing yields, in any listing order |
| `CarrierReads.CommitOutcome` | src/storage.rs:1347-1372 | reading an object of a commit, as the model defines it, is what its tree listing and blobs yield |
| `CarrierReads.TrackedReads` | src/storage.rs:1347-1372 | over working trees whose files are all tracked, every read yields the commit's bytes if and only if every object directory agrees with the commit, and fails alike if and only if none is a stranger to it |
| `CarrierReads.RestoredReads` | src/storage.rs:1281-1324 | for every working tree and commit, the exact conditions under which reads after a restoration are the commit's; HEAD always is |
| `CarrierReads.EmptiedDirectoryHides` | src/storage.rs:1316-1322 | an object staged by a failed publication leaves an empty directory: after a refresh to a commit that holds the object, reading it fails |
| `CarrierReads.RepairedTailIsRemoved` | src/storage.rs:1316-1322 | a repaired copy that only adds a chunk is undone by the restoration |
| `CarrierReads.RepairedCopySurvives` | src/storage.rs:1281-1324 | a repaired copy that replaces a tracked chunk survives a restoration to a commit with the corrupt one |
| `CarrierReads.MergedReads` | src/storage.rs:1218-1277 | for every index and working tree, the exact conditions under which reads after a publication are those of the published commit |
| `CarrierReads.StagedReads` | src/storage.rs:1218-1277 | they are whenever every staged directory is a whole object that the index lacks, and then each staged object reads back |
| `CarrierReads.MergedKeeps` | src/storage.rs:1218-1277 | a published commit keeps every object of the index that was not staged |
| `Carrier.SuccessorReads` | src/storage.rs:1218-1277 | the committed tree has the new HEAD, keeps every object of the index and adds exactly the staged chunk files, and reads as stated above |
| `Carrier.GitStorage.PrepareRecovery` | src/storage.rs:1599-1656 | drops every object that is not of the selected chain from working tree and index; HEAD still reads as the base's |
| `Carrier.RecoveryPublishesChain` | src/storage.rs:1599-1656 | after it, the published tree holds of all objects exactly those of the selected chain, unchanged |
| `Carrier.GitStorage.CompareAndSwapHead` | src/storage.rs:1395-1431 | success is an atomic compare-and-swap on the remote: the tip moved from the opened commit, whose HEAD was the expected ID, to a child with the new HEAD, all staged objects and all other objects of the base; otherwise the opened commit stays, with the reads of the restoration if the publication was attempted and an untouched checkout if not; without interference it succeeds exactly if tip and HEAD are as expected |
| `Carrier.GitStorage.CompareAndSwapObservedHead` | src/storage.rs:1451-1485 | the same, with the same reads and conflicts, for the observed HEAD file of recovery, and only with the token of the opened commit |
| `Carrier.GitStorage.Refresh` | src/storage.rs:1380-1393 | afterwards the opened commit is the fetched tip, and the reads are its under the exact conditions of the restoration; an unchanged tip changes nothing, and an error leaves the opened commit |
| `HistorySearch.CommitHistory` | src/storage.rs:1104-1132 | refuses exactly the histories with a merge commit, and lists one commit past the limit |
| `HistorySearch.StartedBySomeChange` | src/storage.rs:1140-1163 | on linear history every copy a commit holds was started by a commit that changed the path |
| `HistorySearch.ChangedCommitsSuffice` | src/storage.rs:1140-1163 | some commit holds a valid copy if and only if some commit that changed the path does |
| `HistorySearch.ReadCopyAt` | src/storage.rs:1170-1194 | within the budget it tells exactly whether the copy is valid; the bytes of rejected copies count |
| `HistorySearch.FindCopy` | src/storage.rs:1537-1597 | finds a valid copy if and only if any commit of the history holds one, and fails exactly if the bytes of the tried copies pass the budget |
| `HistorySearch.RecoveryHistory` | src/storage.rs:1487-1535 | returns every past head in order and the manifests of exactly those heads that some commit holds intact, and fails exactly if the bytes read pass the budget |
| `Persist.ReplaceFileDurably` | src/persist.rs:71-115 | in every intermediate state the destination is as it was or holds the whole new text, and a crash leaves one of the two; at the end the new text is durable |
| `Persist.CreateDirAllDurable` | src/persist.rs:174-230 | fails exactly if a file stands on the path; after success the whole path survives every crash if and only if none of its directories that existed could be lost to one; only missing directories were touched |
| `Persist.FlushMissing` | src/persist.rs:232-238 | flushing the new directories and the deepest one that existed settles every name in them and nothing else |
| `Persist.FirmIffNoneLoose` | src/persist.rs:155-173 | an existing directory survives every crash if and only if neither it nor any directory above it is unflushed |
| `Persist.KilledProcessLeavesLoose` | src/persist.rs:166-173 | a process killed between `create_dir` and the flush: the next call succeeds at once and the directory can still be lost |
| `Persist.UnflushedDirectoryMayVanish` | src/persist.rs:155-173 | a crash may lose an unflushed directory with everything in it and keep all the rest |
| `Durability.StoreObject` | src/storage.rs:411-448 | fails exactly if something stands in the way; otherwise the object survives every crash if and only if each existing directory above it did or is settled by the creation of its sibling, and nothing that a head needs was touched on the way |
| `Durability.WriteGenesisFiles` | src/storage.rs:369-380 | before the first HEAD, notice and FORMAT become durable and no HEAD appears at any crash point |
| `Durability.HeadReplacedSafely` | src/storage.rs:512-535 | in every state of HEAD's replacement a surviving HEAD is wholly old or wholly new and its chain complete |
| `Durability.CompareAndSwapHead` | src/storage.rs:512-535 | succeeds exactly if HEAD reads as expected, and then the new HEAD is durable; if what the new head needs survives, then at every crash point a surviving HEAD is an earlier ID or the new one over a complete storage |
| `Durability.HeadNeedsAreFirm` | src/storage.rs:512-535 | in a sound storage everything that the current HEAD needs survives every crash |
| `Durability.PublishGeneration` | src/repository.rs:587-637 | a whole publication succeeds exactly if nothing is in the way and HEAD reads as expected; if no existing directory above the new objects is unflushed, the storage is sound at every moment from the first call to the last, and no directory but the staging one is left unflushed |
| `Durability.CrashLeavesCompleteHead` | src/storage.rs:367-380 | in every file system a crash may leave, a HEAD is one of the expected IDs, FORMAT is beside it, and every manifest and pack of its chain is intact |
| `Durability.RestartIsSafe` | src/storage.rs:512-535 | a crash at any sound moment leaves a storage that the next process finds sound again and without unflushed directories, so its publication can start from it |
| `Durability.LooseDirectoryLosesObject` | src/persist.rs:166-173 | while a directory above an object of the durable HEAD is unflushed, a crash may leave that HEAD without the object |
| `ChainStorage.HeadNeedsItsChain` | src/repository.rs:1375-1496 | what a head needs in storage is exactly the manifests and packs of the one accepted chain with that head |
| `ChainStorage.GenerationStoresItsNeeds` | src/repository.rs:587-637 | publishing a generation stores, of what the new head needs, exactly what the expected head did not |
| `ChainStorage.CrashLeavesOpenableChain` | src/repository.rs:1375-1496 | whatever HEAD a crash leaves, it heads an accepted chain whose manifests and packs are all there, and every device that unwraps its key opens exactly that chain |

## Left out

- The `git-remote-helper` protocol, the command line, tracing, carrier URL parsing and the carrier cache: parsing and process plumbing.
- Hex, Base64 and JSON well-formedness checks: texts are values that decode or do not.
- The recovery budgets inside the chain walk: an exhausted budget is a read error of the storage.
- `record_rejected_head` and the texts of recovery reports: diagnostics only.
- FORMAT parsing and the refusal of format 4 storage: `read_head` is modelled on storage of the current format.
- File locks and the floor file's own JSON round trip: a guard is held for a whole operation.
- Failing flush and cleanup calls of the directory backend: the model covers a single writer whose calls succeed until the machine crashes or the process is killed.
- Continuity.StepKeepsConsistent: does not model two processes of one machine interleaving inside one operation, because the floor lock is held throughout.
- CarrierChunks.ValidatedChunkPaths: does not model directories of more than 10^8 entries, because chunk names then need more than eight digits.
- CarrierChunks.ParseChunkListing: does not model the splitting of the raw `git ls-tree` bytes into fields, because it starts from split entries.
- Checkout.Repository.Import: does not model packs that fail to open or pruning of the local store, because the property is stated for stores that only grow.
- Carrier.GitStorage.CompareAndSwapHead: does not model the parsing of the HEAD file, because the file holds the ID itself in the model.
- Carrier.GitStorage.PrepareRecovery: does not model its failures, because the recovery then ends before it publishes.
- Durability.PublishGeneration: does not model HEAD.lock and the encryption of the stored bytes, because only names, contents and flushes matter to a crash.
- PackStream.SealPackStream: does not model a failing output, because the stream is returned as a value.
