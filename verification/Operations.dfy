/** The operations that append one generation: `initialize`, `publish_refs`,
    `add_device`, `revoke_device` and the republication of `recover`
    (src/repository.rs). */
module Operations {
  import opened Prelude
  import opened Policy
  import opened Manifests
  import opened Chain
  import opened Authenticity
  import opened Authorization
  import opened Sealing
  import C = Continuity

  // ---------------------------------------------------------------------------
  // Construction

  /** The drawn values one publication draws. */
  datatype Drawn = Drawn(key: Key, linkNonce: nat, draws: Draws)

  /** The one pack a push may add. */
  datatype NewPack = NewPack(id: nat, plaintextSize: u64)

  /** `prepare_genesis`: refused where storage has a head already, and on a
      machine that already pins this root. */
  function Initialize(head: Option<Id>, floor: Option<C.Floor>, key: KeyFile, ownerName: string, drawn: Drawn)
    : Result<Entry>
  {
    var _ :- Need(head.None?);
    var _ :- Need(floor.None?);
    GenesisEntry(key, ownerName, drawn)
  }

  function GenesisEntry(key: KeyFile, ownerName: string, drawn: Drawn): Result<Entry> {
    var policy :- Genesis(key, ownerName);
    SealAndStore(None, policy.0, None, drawn.key, ManifestGenesis(key.root, policy.0, policy.1), key, drawn.draws)
  }

  function LinkTo(parent: Entry, generation: u64, drawn: Drawn): Box<Key> {
    WrapPredecessorKey(drawn.key, parent.key, parent.manifest.root, generation, parent.id, drawn.linkNonce)
  }

  function Deltas(pack: Option<NewPack>, generation: u64): seq<PackDescriptor> {
    if pack.Some? then [PackDescriptor(pack.value.id, pack.value.plaintextSize, generation, 0)] else []
  }

  /** The successor that `publish_refs` builds. `recover` builds the same with
      the base's own refs and no pack. */
  function WriterManifest(parent: Entry, refs: Refs, pack: Option<NewPack>, drawn: Drawn): Result<Manifest> {
    var generation := CheckedSuccessor(parent.manifest.generation);
    var _ :- Need(generation.Some?);
    var packs := Deltas(pack, generation.value);
    var _ :- Need(parent.manifest.totalPackCount + |packs| < 0x1_0000_0000_0000_0000);
    Ok(Manifest(parent.manifest.formatVersion, parent.manifest.root, generation.value, Some(parent.id),
                parent.policy.id, parent.policy.body.generation, Writer, parent.manifest.totalPackCount + |packs|,
                refs, packs, Some(LinkTo(parent, generation.value, drawn)), None))
  }

  function Publish(parent: Entry, refs: Refs, pack: Option<NewPack>, signer: KeyFile, drawn: Drawn): Result<Entry> {
    var _ :- Need(parent.policy.IsActiveWriter(signer.Id()));
    var m :- WriterManifest(parent, refs, pack, drawn);
    SealAndStore(Some(parent), parent.policy, None, drawn.key, m, signer, drawn.draws)
  }

  function TransitionManifest(parent: Entry, policy: PolicyState, bytes: PolicyBytes, drawn: Drawn): Result<Manifest> {
    var generation := CheckedSuccessor(parent.manifest.generation);
    var _ :- Need(generation.Some?);
    Ok(Manifest(parent.manifest.formatVersion, parent.manifest.root, generation.value, Some(parent.id),
                policy.id, policy.body.generation, PolicyTransition, parent.manifest.totalPackCount,
                parent.manifest.refs, [], Some(LinkTo(parent, generation.value, drawn)), Some(bytes)))
  }

  function ChangePolicy(parent: Entry, devices: seq<DeviceRecord>, signer: KeyFile, drawn: Drawn): Result<Entry> {
    var policy :- Successor(parent.policy, devices, signer);
    var m :- TransitionManifest(parent, policy.0, policy.1, drawn);
    var _ :- ValidateSuccessor(policy.0, parent.policy);
    SealAndStore(Some(parent), policy.0, Some(parent.policy), drawn.key, m, signer, drawn.draws)
  }

  function AddDevice(parent: Entry, record: DeviceRecord, signer: KeyFile, drawn: Drawn): Result<Entry>
    requires record.Active()
  {
    var _ :- Need(parent.policy.IsActiveAdmin(signer.Id()));
    var _ :- Need(parent.policy.Device(record.public.deviceId).None?);
    ChangePolicy(parent, parent.policy.body.devices + [record], signer, drawn)
  }

  /** The registry with the first active record of `id` stamped as revoked. */
  function Revoked(devices: seq<DeviceRecord>, id: DeviceId, stamp: u64): (r: seq<DeviceRecord>)
    ensures |r| == |devices|
  {
    if devices == [] then []
    else if devices[0].public.deviceId == id && devices[0].Active() then
      [devices[0].(revokedAt := Some(stamp))] + devices[1..]
    else [devices[0]] + Revoked(devices[1..], id, stamp)
  }

  function RevokeDevice(parent: Entry, id: DeviceId, signer: KeyFile, drawn: Drawn): Result<Entry> {
    var _ :- Need(parent.policy.IsActiveAdmin(signer.Id()));
    var _ :- Need(exists d <- parent.policy.body.devices :: d.public.deviceId == id && d.Active());
    var stamp := CheckedSuccessor(parent.policy.body.generation);
    var _ :- Need(stamp.Some?);
    var devices := Revoked(parent.policy.body.devices, id, stamp.value);
    var _ :- Need(ValidActiveRoles(devices));
    ChangePolicy(parent, devices, signer, drawn)
  }

  // ---------------------------------------------------------------------------
  // Stored entries are what was sealed

  /** Whatever a seal stores was opened and verified from the stored bytes. */
  lemma StoredIsAuthentic(
    chain: seq<Entry>, root: Root, policy: PolicyState, parentPolicy: Option<PolicyState>, key: Key, m: Manifest,
    signer: KeyFile, draws: Draws, e: Entry)
    requires Authentic(chain, root)
    requires SealAndStore(Some(chain[0]), policy, parentPolicy, key, m, signer, draws) == Ok(e)
    requires SelectSuccessorPolicy(m, chain[0]) == Ok((policy, parentPolicy))
    requires e.manifest == m
    requires PackIds(m.newPacks) !! ChainPackIds(chain)
    ensures Authentic([e] + chain, root)
  {
    hide OpenManifest, VerifyManifest, UnwrapPredecessorKey, SealManifest, SelectSuccessorPolicy,
      ValidateManifestSuccessor, ValidateManifestGenesis, AuthenticGenesis;
    assert AuthenticSuccessor(e, chain[0]);
    assert ([e] + chain)[1..] == chain;
  }

  // ---------------------------------------------------------------------------
  // Initialization

  lemma CreateParses(body: PolicyBody, signer: KeyFile)
    requires body.formatVersion == FORMAT_VERSION && body.adminThreshold == 1
    requires Create(body, signer).Ok?
    ensures var created := Create(body, signer).value;
      && Parse(created.1) == Ok(created.0)
      && created.1.Text?
      && created.0.body == body && ValidBody(body)
      && created.0.signatures == [PolicySignature(signer.Id(), Signed(signer.signing, created.0.exactBody))]
  {
  }

  lemma GenesisBody(key: KeyFile, ownerName: string)
    ensures Genesis(key, ownerName).Ok? <==> ValidName(ownerName)
  {
    var owner := DeviceRecord(key.Public(), ownerName, OWNER, None);
    assert owner in [owner] && owner.ActiveReader() && owner.ActiveAdmin();
  }

  /** Initialization succeeds exactly on storage without a head, on a machine
      that pins nothing for the root, with a valid owner label (the envelope
      draws must not collide). */
  lemma InitializeSucceeds(head: Option<Id>, floor: Option<C.Floor>, key: KeyFile, ownerName: string, drawn: Drawn)
    requires DistinctDraws(1, drawn.draws)
    ensures Initialize(head, floor, key, ownerName, drawn).Ok? <==> head.None? && floor.None? && ValidName(ownerName)
    ensures Initialize(head, floor, key, ownerName, drawn).Ok? ==>
      var policy := Genesis(key, ownerName).value;
      var e := Initialize(head, floor, key, ownerName, drawn).value;
      e.manifest == ManifestGenesis(key.root, policy.0, policy.1) && e.policy == policy.0
  {
    hide ValidName;
    GenesisBody(key, ownerName);
    if ValidName(ownerName) {
      var policy := Genesis(key, ownerName).value;
      CreateParses(policy.0.body, key);
      var m := ManifestGenesis(key.root, policy.0, policy.1);
      assert ActiveReaders(policy.0.body.devices) == policy.0.body.devices;
      assert WellPlaced(m, None, policy.0, drawn.key);
      SealAndStoreSucceeds(None, policy.0, None, drawn.key, m, key, drawn.draws);
    }
  }

  /** The genesis head that initialization publishes is accepted by its readers
      if and only if the key file names its own repository root. A key made for
      another repository's root publishes a head that every client refuses. */
  lemma InitializeIsAuthenticIff(
    head: Option<Id>, floor: Option<C.Floor>, key: KeyFile, ownerName: string, drawn: Drawn)
    requires Initialize(head, floor, key, ownerName, drawn).Ok?
    ensures Authentic([Initialize(head, floor, key, ownerName, drawn).value], key.root) <==>
      key.root == RootOf(key.signing, key.wrapping)
  {
    hide OpenManifest, SealManifest, VerifyManifest, ValidName;
    var e := Initialize(head, floor, key, ownerName, drawn).value;
    var policy := Genesis(key, ownerName).value;
    GenesisBody(key, ownerName);
    CreateParses(policy.0.body, key);
    GenesisStored(key, policy.0, policy.1, drawn, e);
    assert Opens(e);
    assert e.policy.body.devices[0].public == key.Public();
  }

  lemma GenesisStored(key: KeyFile, policy: PolicyState, bytes: PolicyBytes, drawn: Drawn, e: Entry)
    requires SealAndStore(None, policy, None, drawn.key, ManifestGenesis(key.root, policy, bytes), key, drawn.draws) == Ok(e)
    requires bytes.Text?
    ensures e.manifest == ManifestGenesis(key.root, policy, bytes)
  {
    hide ValidPackDelta, ValidLayout, ValidAudit, Parse, ValidEnvelopeCount, EnvelopePairs;
    var m := ManifestGenesis(key.root, policy, bytes);
    var pairs := EnvelopePairs(policy, m, drawn.key, drawn.draws).value;
    SealedOpens(key, m, drawn.key, EnvelopesOf(pairs), AuditOf(pairs), drawn.draws);
  }

  /** A collaborator's key: it names the owner's root, not its own. */
  lemma CollaboratorCannotInitialize(drawn: Drawn)
    requires DistinctDraws(1, drawn.draws)
    ensures
      var key := KeyFile(RootOf(1, 1), 2, 2);
      var genesis := Initialize(None, None, key, "laptop", drawn);
      genesis.Ok? && !Authentic([genesis.value], key.root)
  {
    hide Initialize, Authentic;
    var key := KeyFile(RootOf(1, 1), 2, 2);
    SampleNames();
    InitializeSucceeds(None, None, key, "laptop", drawn);
    InitializeIsAuthenticIff(None, None, key, "laptop", drawn);
  }

  lemma SampleNames()
    ensures ValidName("laptop") && ValidName("owner")
  {
    assert Utf8Length("laptop") == 6 && Utf8Length("owner") == 5;
  }

  // ---------------------------------------------------------------------------
  // Content publication

  ghost predicate FreshPack(chain: seq<Entry>, pack: Option<NewPack>) {
    pack.Some? ==> pack.value.id !in ChainPackIds(chain)
  }

  /** What a writer can check before it publishes. */
  predicate PublishAllowed(parent: Entry, pack: Option<NewPack>, signer: KeyFile) {
    && parent.policy.IsActiveWriter(signer.Id())
    && parent.manifest.generation + 1 < 0x1_0000_0000_0000_0000
    && parent.manifest.totalPackCount + (if pack.Some? then 1 else 0) < 0x1_0000_0000_0000_0000
    && (pack.Some? ==> pack.value.plaintextSize != 0)
  }

  lemma HeadFacts(chain: seq<Entry>, root: Root)
    requires Authentic(chain, root)
    ensures Opens(chain[0])
    ensures ValidBody(chain[0].policy.body)
    ensures ValidateManifestPolicy(chain[0].manifest, chain[0].policy).Ok?
    ensures chain[0].header.generation == chain[0].manifest.generation && chain[0].header.root == chain[0].manifest.root
    ensures chain[0].header.commitment == CommitTo(chain[0].key)
  {
    hide AuthenticSuccessor, AuthenticGenesis, ValidBody, OpenManifest, ValidateManifestPolicy;
    AuthenticOpens(chain, root);
    PoliciesValid(chain, root);
    assert chain[0] in chain;
    HeadPolicy(chain[0], if |chain| > 1 then Some(chain[1]) else None, root);
  }

  lemma HeadPolicy(e: Entry, parent: Option<Entry>, root: Root)
    requires if parent.Some? then AuthenticSuccessor(e, parent.value) else AuthenticGenesis(e, root)
    ensures ValidateManifestPolicy(e.manifest, e.policy).Ok?
  {
    hide OpenManifest, VerifyManifest, UnwrapPredecessorKey, SelectSuccessorPolicy, Parse, ValidateGenesis;
  }

  lemma WriterManifestPlaced(chain: seq<Entry>, root: Root, refs: Refs, pack: Option<NewPack>, signer: KeyFile, drawn: Drawn)
    requires Authentic(chain, root)
    requires PublishAllowed(chain[0], pack, signer)
    ensures WriterManifest(chain[0], refs, pack, drawn).Ok?
    ensures WellPlaced(WriterManifest(chain[0], refs, pack, drawn).value, Some(chain[0]), chain[0].policy, drawn.key)
  {
    hide Opens, Authentic, ValidBody, Parse, FindDevice;
    HeadFacts(chain, root);
    var m := WriterManifest(chain[0], refs, pack, drawn).value;
    assert ValidPackDelta(m);
  }

  /** A publication over an accepted head succeeds exactly when the writer is
      active, no counter overflows and a new pack is not empty (the envelope draws
      must not collide; the list always fits). The new chain is accepted, and
      its head is exactly the manifest that was built. */
  lemma PublishIsAuthentic(
    chain: seq<Entry>, root: Root, refs: Refs, pack: Option<NewPack>, signer: KeyFile, drawn: Drawn)
    requires Authentic(chain, root)
    requires FreshSeeds(drawn.draws)
    requires FreshPack(chain, pack)
    ensures Publish(chain[0], refs, pack, signer, drawn).Ok? <==> PublishAllowed(chain[0], pack, signer)
    ensures Publish(chain[0], refs, pack, signer, drawn).Ok? ==>
      var e := Publish(chain[0], refs, pack, signer, drawn).value;
      && Authentic([e] + chain, root)
      && WriterManifest(chain[0], refs, pack, drawn) == Ok(e.manifest)
      && e.policy == chain[0].policy && e.key == drawn.key && e.signer == signer.Id()
  {
    hide Authentic, WellPlaced, SealAndStore, Sealable, ValidBody, FindDevice, OpenManifest;
    HeadFacts(chain, root);
    HeadFits(chain, root);
    RoomIsEnough(chain[0].policy, drawn.draws);
    if PublishAllowed(chain[0], pack, signer) {
      WriterManifestPlaced(chain, root, refs, pack, signer, drawn);
      var m := WriterManifest(chain[0], refs, pack, drawn).value;
      SealAndStoreSucceeds(Some(chain[0]), chain[0].policy, None, drawn.key, m, signer, drawn.draws);
      var e := Publish(chain[0], refs, pack, signer, drawn).value;
      assert PackIds(m.newPacks) == if pack.Some? then {pack.value.id} else {} by {
        if pack.Some? {
          assert m.newPacks[0] in m.newPacks;
        }
      }
      StoredIsAuthentic(chain, root, chain[0].policy, None, drawn.key, m, signer, drawn.draws, e);
    } else if Publish(chain[0], refs, pack, signer, drawn).Ok? {
      EmptyPackRejected(chain[0], refs, pack, signer, drawn);
    }
  }

  lemma EmptyPackRejected(parent: Entry, refs: Refs, pack: Option<NewPack>, signer: KeyFile, drawn: Drawn)
    requires Publish(parent, refs, pack, signer, drawn).Ok?
    ensures pack.Some? ==> pack.value.plaintextSize != 0
  {
    hide SealManifest, OpenManifest, VerifyManifest;
    var m := WriterManifest(parent, refs, pack, drawn).value;
    assert ValidPackDelta(m);
  }

  // ---------------------------------------------------------------------------
  // Membership changes

  lemma {:induction false} PermutationDistinctIds(s: seq<DeviceRecord>, t: seq<DeviceRecord>)
    requires multiset(s) == multiset(t) && DistinctIds(s)
    ensures DistinctIds(t)
  {
    forall i, j | 0 <= i < j < |t|
      ensures t[i].public.deviceId != t[j].public.deviceId
    {
      InMultiset(t, s, t[i]);
      InMultiset(t, s, t[j]);
      var k :| 0 <= k < |s| && s[k] == t[i];
      var l :| 0 <= l < |s| && s[l] == t[j];
      if k == l {
        CountTwice(t, i, j);
        DeviceCountedOnce(s, k);
      }
    }
  }

  lemma DeviceCountedOnce(s: seq<DeviceRecord>, k: nat)
    requires DistinctIds(s) && k < |s|
    ensures multiset(s)[s[k]] == 1
  {
    assert s == s[..k] + [s[k]] + s[k + 1..];
    assert s[k] !in s[..k] && s[k] !in s[k + 1..];
    assert multiset(s) == multiset(s[..k]) + multiset{s[k]} + multiset(s[k + 1..]);
  }

  lemma PermutationDistinctNames(s: seq<DeviceRecord>, t: seq<DeviceRecord>)
    requires multiset(s) == multiset(t) && DistinctIds(s) && DistinctActiveNames(s)
    ensures DistinctActiveNames(t)
  {
    PermutationDistinctIds(s, t);
    forall i, j | 0 <= i < j < |t| && t[i].Active() && t[j].Active()
      ensures t[i].name != t[j].name
    {
      InMultiset(t, s, t[i]);
      InMultiset(t, s, t[j]);
      var k :| 0 <= k < |s| && s[k] == t[i];
      var l :| 0 <= l < |s| && s[l] == t[j];
    }
  }

  /** Registry validity does not depend on the order of the records. */
  lemma PermutationValid(s: seq<DeviceRecord>, t: seq<DeviceRecord>)
    requires multiset(s) == multiset(t)
    ensures ValidDevices(s) ==> ValidDevices(t)
    ensures ValidActiveRoles(s) ==> ValidActiveRoles(t)
    ensures forall d :: d in s <==> d in t
  {
    forall d
      ensures d in s <==> d in t
    {
      InMultiset(s, t, d);
    }
    if ValidDevices(s) {
      PermutationDistinctIds(s, t);
      PermutationDistinctNames(s, t);
    }
  }

  /** What a registry change must satisfy to become the next policy. */
  predicate ChangeAllowed(parent: PolicyState, devices: seq<DeviceRecord>) {
    && parent.body.generation + 1 < 0x1_0000_0000_0000_0000
    && ValidDevices(devices)
    && ValidActiveRoles(devices)
    && (forall d <- devices :: d.public.root == parent.body.root)
  }

  lemma SuccessorSucceeds(parent: PolicyState, devices: seq<DeviceRecord>, signer: KeyFile)
    ensures Successor(parent, devices, signer).Ok? <==> ChangeAllowed(parent, devices)
    ensures Successor(parent, devices, signer).Ok? ==>
      var policy := Successor(parent, devices, signer).value;
      && Parse(policy.1) == Ok(policy.0) && policy.1.Text? && ValidBody(policy.0.body)
      && policy.0.body == PolicyBody(FORMAT_VERSION, parent.body.root, parent.body.generation + 1, Some(parent.id), 1,
                                     SortById(devices))
      && policy.0.signatures == [PolicySignature(signer.Id(), Signed(signer.signing, policy.0.exactBody))]
  {
    hide ValidDevices, ValidActiveRoles, SortById;
    PermutationValid(devices, SortById(devices));
    PermutationValid(SortById(devices), devices);
    if Successor(parent, devices, signer).Ok? {
      CreateParses(Successor(parent, devices, signer).value.0.body, signer);
    }
  }

  predicate MayBecome(before: DeviceRecord, after: DeviceRecord, generation: nat) {
    && after.public == before.public
    && after.name == before.name
    && (before.revokedAt.Some? ==> after.revokedAt == before.revokedAt)
    && (before.revokedAt.None? ==> after.revokedAt.None? || after.revokedAt.value == generation)
  }

  /** Every old record is kept, and every new revocation carries the next
      policy generation. */
  ghost predicate GoodChange(parent: PolicyState, devices: seq<DeviceRecord>) {
    && (forall before <- parent.body.devices :: exists after <- devices ::
          MayBecome(before, after, parent.body.generation + 1))
    && (forall d <- devices :: d.revokedAt.None? || d in parent.body.devices
          || d.revokedAt == Some(parent.body.generation + 1))
  }

  lemma GoodChangeKeeps(parent: PolicyState, devices: seq<DeviceRecord>, policy: PolicyState, before: DeviceRecord)
    requires GoodChange(parent, devices)
    requires DistinctIds(policy.body.devices)
    requires forall d :: d in devices <==> d in policy.body.devices
    requires policy.body.generation == parent.body.generation + 1
    requires before in parent.body.devices
    ensures RecordKept(before, policy)
  {
    hide GoodChange, FindDevice, DistinctIds;
    var after := GoodChangeWitness(parent, devices, before);
    DeviceIsUnique(policy.body.devices, after);
  }

  lemma GoodChangeWitness(parent: PolicyState, devices: seq<DeviceRecord>, before: DeviceRecord)
    returns (after: DeviceRecord)
    requires GoodChange(parent, devices) && before in parent.body.devices
    ensures after in devices && MayBecome(before, after, parent.body.generation + 1)
  {
    hide MayBecome;
    after :| after in devices && MayBecome(before, after, parent.body.generation + 1);
  }

  lemma GoodChangeStamps(parent: PolicyState, devices: seq<DeviceRecord>, device: DeviceRecord, generation: u64)
    requires GoodChange(parent, devices) && device in devices
    requires DistinctIds(parent.body.devices)
    requires generation == parent.body.generation + 1
    ensures RevocationStamped(device, parent, generation)
  {
    if device.revokedAt.Some? && device in parent.body.devices {
      DeviceIsUnique(parent.body.devices, device);
    }
  }

  lemma GoodChangeValidates(parent: PolicyState, devices: seq<DeviceRecord>, signer: KeyFile)
    requires ValidBody(parent.body) && parent.body.adminThreshold == 1
    requires ChangeAllowed(parent, devices)
    requires GoodChange(parent, devices)
    requires parent.IsActiveAdmin(signer.Id())
    ensures Successor(parent, devices, signer).Ok?
    ensures ValidateSuccessor(Successor(parent, devices, signer).value.0, parent).Ok?
  {
    hide SortById, ValidActiveRoles, GoodChange, RecordKept, RevocationStamped, VerifyAgainstAdmins, FindDevice,
      Parse, DistinctActiveNames, ValidDeviceRoots, Successor;
    SuccessorSucceeds(parent, devices, signer);
    var policy := Successor(parent, devices, signer).value.0;
    PermutationValid(devices, SortById(devices));
    forall before | before in parent.body.devices
      ensures RecordKept(before, policy)
    {
      GoodChangeKeeps(parent, devices, policy, before);
    }
    forall d | d in policy.body.devices
      ensures RevocationStamped(d, parent, policy.body.generation)
    {
      GoodChangeStamps(parent, devices, d, policy.body.generation);
    }
    AdminVerifies(policy, parent, signer);
  }

  lemma AdminVerifies(policy: PolicyState, parent: PolicyState, signer: KeyFile)
    requires ValidBody(parent.body)
    requires parent.IsActiveAdmin(signer.Id())
    requires policy.signatures == [PolicySignature(signer.Id(), Signed(signer.signing, policy.exactBody))]
    ensures VerifyAgainstAdmins(policy, parent.body.devices).Ok?
  {
    var admin := parent.Device(signer.Id()).value;
    assert admin in parent.body.devices;
    var found := FindAdmin(parent.body.devices, signer.Id());
    assert found.Some?;
    DeviceIsUnique(parent.body.devices, admin);
    DeviceIsUnique(parent.body.devices, found.value);
  }

  lemma TransitionPlaced(
    chain: seq<Entry>, root: Root, devices: seq<DeviceRecord>, signer: KeyFile, drawn: Drawn)
    requires Authentic(chain, root)
    requires ChangeAllowed(chain[0].policy, devices)
    requires chain[0].manifest.generation + 1 < 0x1_0000_0000_0000_0000
    ensures Successor(chain[0].policy, devices, signer).Ok?
    ensures
      var policy := Successor(chain[0].policy, devices, signer).value;
      var m := TransitionManifest(chain[0], policy.0, policy.1, drawn);
      m.Ok? && WellPlaced(m.value, Some(chain[0]), policy.0, drawn.key)
  {
    hide Opens, Authentic, ValidBody, Parse, ChangeAllowed, SortById;
    HeadFacts(chain, root);
    SuccessorSucceeds(chain[0].policy, devices, signer);
    var policy := Successor(chain[0].policy, devices, signer).value;
    var m := TransitionManifest(chain[0], policy.0, policy.1, drawn).value;
    assert ValidPackDelta(m);
  }

  /** A membership change that keeps the registry's history is always stored and
      extends the accepted chain. */
  lemma ChangeIsAuthentic(
    chain: seq<Entry>, root: Root, devices: seq<DeviceRecord>, signer: KeyFile, drawn: Drawn)
    requires Authentic(chain, root)
    requires chain[0].policy.IsActiveAdmin(signer.Id())
    requires ChangeAllowed(chain[0].policy, devices) && GoodChange(chain[0].policy, devices)
    requires chain[0].manifest.generation + 1 < 0x1_0000_0000_0000_0000
    requires |ActiveReaders(devices)| <= MAX_ENVELOPES && FreshSeeds(drawn.draws)
    ensures Successor(chain[0].policy, devices, signer).Ok?
    ensures ChangePolicy(chain[0], devices, signer, drawn).Ok?
    ensures
      var e := ChangePolicy(chain[0], devices, signer, drawn).value;
      && Authentic([e] + chain, root)
      && e.policy == Successor(chain[0].policy, devices, signer).value.0
      && e.manifest.refs == chain[0].manifest.refs
      && e.key == drawn.key && e.signer == signer.Id()
  {
    hide Authentic, WellPlaced, SealAndStore, Sealable, ValidBody, FindDevice, Opens, ChangeAllowed, GoodChange,
      Successor, ValidateSuccessor, Parse;
    HeadFacts(chain, root);
    HeadThreshold(chain, root);
    var parent := chain[0].policy;
    SuccessorSucceeds(parent, devices, signer);
    GoodChangeValidates(parent, devices, signer);
    TransitionPlaced(chain, root, devices, signer, drawn);
    var policy := Successor(parent, devices, signer).value;
    ReadersPermute(devices, policy.0.body.devices);
    RoomIsEnough(policy.0, drawn.draws);
    var m := TransitionManifest(chain[0], policy.0, policy.1, drawn).value;
    SealAndStoreSucceeds(Some(chain[0]), policy.0, Some(parent), drawn.key, m, signer, drawn.draws);
    var e := ChangePolicy(chain[0], devices, signer, drawn).value;
    StoredIsAuthentic(chain, root, policy.0, Some(parent), drawn.key, m, signer, drawn.draws, e);
  }

  lemma {:induction false} HeadThreshold(chain: seq<Entry>, root: Root)
    requires Authentic(chain, root)
    ensures chain[0].policy.body.adminThreshold == 1
  {
    hide AuthenticGenesis, AuthenticSuccessor;
    if |chain| == 1 {
      EntryThreshold(chain[0], None, root);
    } else {
      HeadThreshold(chain[1..], root);
      EntryThreshold(chain[0], Some(chain[1]), root);
    }
  }

  lemma EntryThreshold(e: Entry, parent: Option<Entry>, root: Root)
    requires if parent.Some? then AuthenticSuccessor(e, parent.value) else AuthenticGenesis(e, root)
    requires parent.Some? ==> parent.value.policy.body.adminThreshold == 1
    ensures e.policy.body.adminThreshold == 1
  {
    hide OpenManifest, VerifyManifest, UnwrapPredecessorKey, ValidateManifestSuccessor, Parse;
  }

  /** What an administrator can check before adding a device. */
  predicate AddAllowed(parent: Entry, record: DeviceRecord, signer: KeyFile) {
    && parent.policy.IsActiveAdmin(signer.Id())
    && parent.policy.Device(record.public.deviceId).None?
    && ValidRecord(record)
    && record.public.root == parent.policy.body.root
    && (forall d <- parent.policy.body.devices :: d.Active() ==> d.name != record.name)
    && |ActiveReaders(parent.policy.body.devices + [record])| <= MAX_ENVELOPES
    && parent.policy.body.generation + 1 < 0x1_0000_0000_0000_0000
    && parent.manifest.generation + 1 < 0x1_0000_0000_0000_0000
  }

  /** Adding a device succeeds exactly when its record is valid and new, its
      label is free, at most 4096 readers result, no counter overflows and an
      administrator asks; the chain stays accepted and the
      registry gains exactly this record. */
  lemma AddIsAuthentic(chain: seq<Entry>, root: Root, record: DeviceRecord, signer: KeyFile, drawn: Drawn)
    requires Authentic(chain, root)
    requires record.Active()
    requires FreshSeeds(drawn.draws)
    ensures AddDevice(chain[0], record, signer, drawn).Ok? <==> AddAllowed(chain[0], record, signer)
    ensures AddDevice(chain[0], record, signer, drawn).Ok? ==>
      var e := AddDevice(chain[0], record, signer, drawn).value;
      && Authentic([e] + chain, root)
      && multiset(e.policy.body.devices) == multiset(chain[0].policy.body.devices) + multiset{record}
  {
    hide Authentic, Sealable, FindDevice, SortById, Successor, ChangePolicy, SealAndStore;
    HeadFacts(chain, root);
    var devices := chain[0].policy.body.devices;
    SuccessorSucceeds(chain[0].policy, devices + [record], signer);
    if AddAllowed(chain[0], record, signer) {
      AddIsGoodChange(chain[0].policy, record);
      ChangeIsAuthentic(chain, root, devices + [record], signer, drawn);
    } else if AddDevice(chain[0], record, signer, drawn).Ok? {
      ChangeNeeds(chain[0], devices + [record], signer, drawn);
      AddNeeds(chain[0], record, signer);
    }
  }

  lemma ChangeNeeds(parent: Entry, devices: seq<DeviceRecord>, signer: KeyFile, drawn: Drawn)
    requires ChangePolicy(parent, devices, signer, drawn).Ok?
    ensures ChangeAllowed(parent.policy, devices)
    ensures parent.manifest.generation + 1 < 0x1_0000_0000_0000_0000
    ensures |ActiveReaders(devices)| <= MAX_ENVELOPES
  {
    hide SealAndStore, ValidateSuccessor, ChangeAllowed, Successor;
    SuccessorSucceeds(parent.policy, devices, signer);
    var policy := Successor(parent.policy, devices, signer).value;
    var m := TransitionManifest(parent, policy.0, policy.1, drawn).value;
    StoredFits(Some(parent), policy.0, Some(parent.policy), drawn.key, m, signer, drawn.draws);
    ReadersPermute(devices, policy.0.body.devices);
  }

  /** Nothing is sealed for more readers than the envelope list can hold. */
  lemma StoredFits(
    previous: Option<Entry>, policy: PolicyState, parentPolicy: Option<PolicyState>, key: Key, m: Manifest,
    signer: KeyFile, draws: Draws)
    requires SealAndStore(previous, policy, parentPolicy, key, m, signer, draws).Ok?
    ensures |ActiveReaders(policy.body.devices)| <= MAX_ENVELOPES
  {
    hide OpenManifest, VerifyManifest, SortPairs, ActiveReaders, ValidLayout, PaddedCount;
  }

  // ---------------------------------------------------------------------------
  // Room for the envelopes

  /** The encapsulated keys are distinct for any number of readers. */
  ghost predicate FreshSeeds(draws: Draws) {
    forall n: nat :: n <= MAX_ENVELOPES ==> DistinctDraws(n, draws)
  }

  lemma RoomIsEnough(policy: PolicyState, draws: Draws)
    requires FreshSeeds(draws) && |ActiveReaders(policy.body.devices)| <= MAX_ENVELOPES
    requires ValidBody(policy.body)
    ensures Sealable(policy, draws)
  {
    hide DistinctDraws, ActiveReaders, ValidDevices, ValidDeviceRoots;
    var d :| d in policy.body.devices && d.ActiveReader();
    assert d in ActiveReaders(policy.body.devices);
  }

  lemma {:induction false} ReadersCounted(devices: seq<DeviceRecord>, d: DeviceRecord)
    ensures multiset(ActiveReaders(devices))[d] == if d.ActiveReader() then multiset(devices)[d] else 0
  {
    if devices != [] {
      ReadersCounted(devices[1..], d);
      assert devices == [devices[0]] + devices[1..];
    }
  }

  /** The number of active readers does not depend on the order of the records. */
  lemma ReadersPermute(s: seq<DeviceRecord>, t: seq<DeviceRecord>)
    requires multiset(s) == multiset(t)
    ensures |ActiveReaders(s)| == |ActiveReaders(t)|
  {
    hide ActiveReaders;
    forall d
      ensures multiset(ActiveReaders(s))[d] == multiset(ActiveReaders(t))[d]
    {
      ReadersCounted(s, d);
      ReadersCounted(t, d);
    }
    assert multiset(ActiveReaders(s)) == multiset(ActiveReaders(t));
    assert |ActiveReaders(s)| == |multiset(ActiveReaders(s))|;
    assert |ActiveReaders(t)| == |multiset(ActiveReaders(t))|;
  }

  lemma {:induction false} RevokedReadersFit(devices: seq<DeviceRecord>, id: DeviceId, stamp: u64)
    ensures |ActiveReaders(Revoked(devices, id, stamp))| <= |ActiveReaders(devices)|
  {
    if devices != [] {
      RevokedReadersFit(devices[1..], id, stamp);
      var r := Revoked(devices, id, stamp);
      if devices[0].public.deviceId == id && devices[0].Active() {
        assert r[1..] == devices[1..];
      } else {
        assert r[1..] == Revoked(devices[1..], id, stamp);
      }
    }
  }

  lemma {:induction false} DistinctCount(ids: seq<DeviceId>)
    requires forall i, j :: 0 <= i < j < |ids| ==> ids[i] != ids[j]
    ensures |set id | id in ids| == |ids|
  {
    if ids != [] {
      DistinctCount(ids[1..]);
      assert (set id | id in ids) == {ids[0]} + set id | id in ids[1..];
      assert ids[0] !in ids[1..];
    }
  }

  lemma {:induction false} AuditedCount(audit: seq<AuditEntry>)
    ensures |AuditedIds(audit)| <= |audit|
  {
    if audit != [] {
      AuditedCount(audit[1..]);
      var rest := AuditedIds(audit[1..]);
      if audit[0].Recipient? {
        assert AuditedIds(audit) == rest + {audit[0].deviceId};
      } else {
        assert AuditedIds(audit) == rest;
      }
    }
  }

  function IdsOf(devices: seq<DeviceRecord>): (r: seq<DeviceId>)
    ensures |r| == |devices|
  {
    seq(|devices|, i requires 0 <= i < |devices| => devices[i].public.deviceId)
  }

  /** An audit that names every active reader once has room for all of them. */
  lemma AuditHasRoom(header: Header, audit: seq<AuditEntry>, policy: PolicyState, key: Key)
    requires ValidAudit(header, audit, policy, key) && DistinctIds(policy.body.devices)
    ensures |ActiveReaders(policy.body.devices)| <= |audit|
  {
    hide EnvelopeFor, FindDevice, ActiveReaders;
    var readers := ActiveReaders(policy.body.devices);
    var ids := IdsOf(readers);
    ReadersDistinct(policy.body.devices);
    DistinctCount(ids);
    var named := set id | id in ids;
    assert named <= AuditedIds(audit) by {
      forall id | id in named
        ensures id in AuditedIds(audit)
      {
        var k :| 0 <= k < |readers| && ids[k] == id;
        assert readers[k] in readers;
        assert id in ReaderIds(policy);
        var i :| 0 <= i < |audit| && audit[i].Recipient? && audit[i].deviceId == id;
        assert audit[i] in audit;
      }
    }
    SmallerSet(named, AuditedIds(audit));
    AuditedCount(audit);
  }

  lemma SmallerSet(a: set<DeviceId>, b: set<DeviceId>)
    requires a <= b
    ensures |a| <= |b|
  {
    assert b == a + (b - a);
    assert |b| == |a| + |b - a|;
  }

  /** The head of an accepted chain has at most 4096 active readers. */
  lemma HeadFits(chain: seq<Entry>, root: Root)
    requires Authentic(chain, root)
    ensures |ActiveReaders(chain[0].policy.body.devices)| <= MAX_ENVELOPES
  {
    hide AuthenticSuccessor, AuthenticGenesis, ValidAudit, ActiveReaders, PowerOfTwo, OpenManifest;
    PoliciesValid(chain, root);
    EntryAudit(chain[0], if |chain| > 1 then Some(chain[1]) else None, root);
    var audit := Unsealed(chain[0]).exactContent.value.audit;
    AuditHasRoom(chain[0].header, audit, chain[0].policy, chain[0].key);
    AuditMatches(chain[0].header, audit, chain[0].policy, chain[0].key);
  }

  lemma AuditMatches(header: Header, audit: seq<AuditEntry>, policy: PolicyState, key: Key)
    requires ValidAudit(header, audit, policy, key)
    ensures |audit| == |header.envelopes|
  {
  }

  lemma AddNeeds(parent: Entry, record: DeviceRecord, signer: KeyFile)
    requires record.Active()
    requires parent.policy.IsActiveAdmin(signer.Id())
    requires parent.policy.Device(record.public.deviceId).None?
    requires ChangeAllowed(parent.policy, parent.policy.body.devices + [record])
    requires |ActiveReaders(parent.policy.body.devices + [record])| <= MAX_ENVELOPES
    requires parent.manifest.generation + 1 < 0x1_0000_0000_0000_0000
    ensures AddAllowed(parent, record, signer)
  {
    hide FindDevice;
    var devices := parent.policy.body.devices;
    var all := devices + [record];
    assert all[|devices|] == record && record in all;
    forall d | d in devices && d.Active()
      ensures d.name != record.name
    {
      var i :| 0 <= i < |devices| && devices[i] == d;
      assert all[i] == d;
    }
  }

  lemma AddIsGoodChange(parent: PolicyState, record: DeviceRecord)
    requires ValidBody(parent.body) && record.Active()
    requires parent.Device(record.public.deviceId).None? && ValidRecord(record)
    requires record.public.root == parent.body.root
    requires forall d <- parent.body.devices :: d.Active() ==> d.name != record.name
    requires parent.body.generation + 1 < 0x1_0000_0000_0000_0000
    ensures ChangeAllowed(parent, parent.body.devices + [record])
    ensures GoodChange(parent, parent.body.devices + [record])
  {
    hide FindDevice, MayBecome, ValidRecord, DistinctIds, DistinctActiveNames, ValidActiveRoles, ValidDevices;
    var devices := parent.body.devices;
    var all := devices + [record];
    AddChangeAllowed(parent, record);
    assert forall d <- all :: d == record || d in devices;
    forall before | before in parent.body.devices
      ensures exists after <- all :: MayBecome(before, after, parent.body.generation + 1)
    {
      assert before in all;
      KeptMayBecome(before, parent.body.generation + 1);
    }
  }

  lemma AddChangeAllowed(parent: PolicyState, record: DeviceRecord)
    requires ValidBody(parent.body) && record.Active()
    requires parent.Device(record.public.deviceId).None? && ValidRecord(record)
    requires record.public.root == parent.body.root
    requires forall d <- parent.body.devices :: d.Active() ==> d.name != record.name
    requires parent.body.generation + 1 < 0x1_0000_0000_0000_0000
    ensures ChangeAllowed(parent, parent.body.devices + [record])
  {
    hide FindDevice, ValidRecord, DistinctIds, DistinctActiveNames, ValidActiveRoles, ValidDevices;
    AppendValid(parent.body.devices, record);
  }

  lemma KeptMayBecome(record: DeviceRecord, generation: nat)
    ensures MayBecome(record, record, generation)
  {
  }

  lemma AppendValid(devices: seq<DeviceRecord>, record: DeviceRecord)
    requires ValidDevices(devices) && ValidActiveRoles(devices) && ValidRecord(record) && record.Active()
    requires forall d <- devices :: d.public.deviceId != record.public.deviceId && (d.Active() ==> d.name != record.name)
    ensures ValidDevices(devices + [record]) && ValidActiveRoles(devices + [record])
  {
    hide ValidRecord, DistinctIds, DistinctActiveNames;
    var all := devices + [record];
    AppendDistinct(devices, record);
    assert forall d <- devices :: d in all;
    assert forall d <- all :: d == record || d in devices;
  }

  lemma AppendDistinct(devices: seq<DeviceRecord>, record: DeviceRecord)
    requires DistinctIds(devices) && DistinctActiveNames(devices)
    requires forall d <- devices :: d.public.deviceId != record.public.deviceId && (d.Active() ==> d.name != record.name)
    ensures DistinctIds(devices + [record]) && DistinctActiveNames(devices + [record])
  {
    var all := devices + [record];
    assert forall i :: 0 <= i < |devices| ==> all[i] == devices[i] && devices[i] in devices;
  }

  /** What an administrator can check before revoking a device. */
  predicate RevokeAllowed(parent: Entry, id: DeviceId, signer: KeyFile) {
    && parent.policy.IsActiveAdmin(signer.Id())
    && (exists d <- parent.policy.body.devices :: d.public.deviceId == id && d.Active())
    && (exists d <- parent.policy.body.devices :: d.ActiveReader() && d.public.deviceId != id)
    && (exists d <- parent.policy.body.devices :: d.ActiveAdmin() && d.public.deviceId != id)
    && parent.policy.body.generation + 1 < 0x1_0000_0000_0000_0000
    && parent.manifest.generation + 1 < 0x1_0000_0000_0000_0000
  }

  function Stamped(device: DeviceRecord, id: DeviceId, stamp: u64): DeviceRecord {
    if device.public.deviceId == id && device.Active() then device.(revokedAt := Some(stamp)) else device
  }

  /** Revocation stamps the one active record of `id` and nothing else. */
  lemma {:induction false} RevokedRecords(devices: seq<DeviceRecord>, id: DeviceId, stamp: u64)
    requires DistinctIds(devices)
    ensures var r := Revoked(devices, id, stamp);
      forall i :: 0 <= i < |devices| ==> r[i] == Stamped(devices[i], id, stamp)
  {
    if devices != [] {
      assert DistinctIds(devices[1..]);
      RevokedRecords(devices[1..], id, stamp);
      assert forall i :: 1 <= i < |devices| ==> devices[i] == devices[1..][i - 1];
    }
  }

  lemma RevokeKeepsValid(parent: PolicyState, id: DeviceId, stamp: u64)
    requires ValidBody(parent.body)
    ensures ValidDevices(Revoked(parent.body.devices, id, stamp))
    ensures forall d <- Revoked(parent.body.devices, id, stamp) :: d.public.root == parent.body.root
  {
    hide ValidActiveRoles, Revoked;
    var devices := parent.body.devices;
    var r := Revoked(devices, id, stamp);
    RevokedRecords(devices, id, stamp);
    assert forall i :: 0 <= i < |r| ==> r[i].public == devices[i].public && r[i].name == devices[i].name && devices[i] in devices;
    assert forall i :: 0 <= i < |r| ==> r[i].roles == devices[i].roles && (r[i].Active() ==> devices[i].Active());
    forall d | d in r
      ensures ValidRecord(d) && d.public.root == parent.body.root
    {
      var i :| 0 <= i < |r| && r[i] == d;
    }
  }

  lemma RevokeIsGoodChange(parent: PolicyState, id: DeviceId, stamp: u64)
    requires ValidBody(parent.body)
    requires stamp == parent.body.generation + 1
    ensures GoodChange(parent, Revoked(parent.body.devices, id, stamp))
  {
    hide ValidActiveRoles, Revoked, ValidDeviceRoots, DistinctActiveNames;
    var devices := parent.body.devices;
    var r := Revoked(devices, id, stamp);
    RevokedRecords(devices, id, stamp);
    forall before | before in devices
      ensures exists after <- r :: MayBecome(before, after, parent.body.generation + 1)
    {
      var i :| 0 <= i < |devices| && devices[i] == before;
      assert r[i] in r && MayBecome(before, r[i], parent.body.generation + 1);
    }
    forall d | d in r
      ensures d.revokedAt.None? || d in devices || d.revokedAt == Some(parent.body.generation + 1)
    {
      var i :| 0 <= i < |r| && r[i] == d;
    }
  }

  /** The two "last active" refusals of `revoke_device` are exactly the loss of
      every other active reader or administrator. */
  lemma RevokeKeepsRoles(parent: PolicyState, id: DeviceId, stamp: u64)
    requires ValidBody(parent.body)
    ensures ValidActiveRoles(Revoked(parent.body.devices, id, stamp)) <==>
      && (exists d <- parent.body.devices :: d.ActiveReader() && d.public.deviceId != id)
      && (exists d <- parent.body.devices :: d.ActiveAdmin() && d.public.deviceId != id)
  {
    hide Revoked, ValidDeviceRoots, DistinctActiveNames;
    var devices := parent.body.devices;
    var r := Revoked(devices, id, stamp);
    RevokedRecords(devices, id, stamp);
    forall d | d in devices && d.Active() && d.public.deviceId != id
      ensures d in r
    {
      var i :| 0 <= i < |devices| && devices[i] == d;
      assert r[i] == d;
    }
    forall d | d in r && d.Active()
      ensures d in devices && d.public.deviceId != id
    {
      var i :| 0 <= i < |r| && r[i] == d;
      assert devices[i] in devices;
    }
  }

  /** Revoking succeeds exactly when an administrator asks for an active device,
      another active reader and another active administrator remain, and no
      counter overflows; the chain stays accepted and the device is stamped with
      the new policy. */
  lemma RevokeIsAuthentic(chain: seq<Entry>, root: Root, id: DeviceId, signer: KeyFile, drawn: Drawn)
    requires Authentic(chain, root)
    requires FreshSeeds(drawn.draws)
    ensures RevokeDevice(chain[0], id, signer, drawn).Ok? <==> RevokeAllowed(chain[0], id, signer)
    ensures RevokeDevice(chain[0], id, signer, drawn).Ok? ==>
      var e := RevokeDevice(chain[0], id, signer, drawn).value;
      && Authentic([e] + chain, root)
      && e.policy.Device(id).Some?
      && e.policy.Device(id).value.revokedAt == Some(e.policy.body.generation)
  {
    hide Authentic, FreshSeeds, FindDevice, SortById, Successor, ChangePolicy, SealAndStore, Revoked, ValidBody,
      ValidActiveRoles, GoodChange, ChangeAllowed, ActiveReaders;
    HeadFacts(chain, root);
    HeadFits(chain, root);
    var parent := chain[0].policy;
    if parent.body.generation + 1 < 0x1_0000_0000_0000_0000 {
      var stamp := parent.body.generation + 1;
      var devices := Revoked(parent.body.devices, id, stamp);
      RevokeKeepsRoles(parent, id, stamp);
      if RevokeAllowed(chain[0], id, signer) {
        RevokeChangeAllowed(parent, id, stamp);
        RevokeIsGoodChange(parent, id, stamp);
        RevokedReadersFit(parent.body.devices, id, stamp);
        ChangeIsAuthentic(chain, root, devices, signer, drawn);
        RevokedIsStamped(chain[0], id, signer, stamp);
      } else if RevokeDevice(chain[0], id, signer, drawn).Ok? {
        ChangeNeeds(chain[0], devices, signer, drawn);
      }
    }
  }

  lemma RevokeChangeAllowed(parent: PolicyState, id: DeviceId, stamp: u64)
    requires ValidBody(parent.body)
    requires stamp == parent.body.generation + 1
    requires ValidActiveRoles(Revoked(parent.body.devices, id, stamp))
    ensures ChangeAllowed(parent, Revoked(parent.body.devices, id, stamp))
  {
    hide Revoked, ValidBody, ValidDevices, ValidActiveRoles;
    RevokeKeepsValid(parent, id, stamp);
  }

  lemma RevokedIsStamped(parent: Entry, id: DeviceId, signer: KeyFile, stamp: u64)
    requires ValidBody(parent.policy.body)
    requires exists d <- parent.policy.body.devices :: d.public.deviceId == id && d.Active()
    requires stamp == parent.policy.body.generation + 1
    requires ChangeAllowed(parent.policy, Revoked(parent.policy.body.devices, id, stamp))
    ensures
      var policy := Successor(parent.policy, Revoked(parent.policy.body.devices, id, stamp), signer);
      && policy.Ok?
      && policy.value.0.Device(id).Some?
      && policy.value.0.Device(id).value.revokedAt == Some(policy.value.0.body.generation)
  {
    hide Revoked, SortById, FindDevice, ValidActiveRoles, ValidDeviceRoots, DistinctActiveNames, DistinctIds, Successor,
      Parse;
    var r := Revoked(parent.policy.body.devices, id, stamp);
    SuccessorSucceeds(parent.policy, r, signer);
    FindsRevoked(parent.policy.body.devices, SortById(r), id, stamp);
  }

  /** In any order, the revoked device is found with its stamp. */
  lemma FindsRevoked(devices: seq<DeviceRecord>, sorted: seq<DeviceRecord>, id: DeviceId, stamp: u64)
    requires DistinctIds(devices) && DistinctIds(sorted)
    requires multiset(sorted) == multiset(Revoked(devices, id, stamp))
    requires exists d <- devices :: d.public.deviceId == id && d.Active()
    ensures FindDevice(sorted, id).Some? && FindDevice(sorted, id).value.revokedAt == Some(stamp)
  {
    hide Revoked, FindDevice, DistinctIds;
    var r := Revoked(devices, id, stamp);
    RevokedRecords(devices, id, stamp);
    var d :| d in devices && d.public.deviceId == id && d.Active();
    var i :| 0 <= i < |devices| && devices[i] == d;
    assert r[i] in r;
    InMultiset(r, sorted, r[i]);
    DeviceIsUnique(sorted, r[i]);
  }

  // ---------------------------------------------------------------------------
  // Runs

  /** One attempt of some machine to append a generation. Recovery may choose a
      base `back` generations behind the head it replaces. */
  datatype Operation =
    | PublishRefs(refs: Refs, pack: Option<NewPack>, signer: KeyFile, drawn: Drawn)
    | Add(record: DeviceRecord, signer: KeyFile, drawn: Drawn)
    | Revoke(id: DeviceId, signer: KeyFile, drawn: Drawn)
    | Recover(back: nat, signer: KeyFile, drawn: Drawn)

  function Apply(op: Operation, chain: seq<Entry>): Result<seq<Entry>>
    requires chain != []
  {
    match op
    case PublishRefs(refs, pack, signer, drawn) =>
      var e :- Publish(chain[0], refs, pack, signer, drawn);
      Ok([e] + chain)
    case Add(record, signer, drawn) =>
      var _ :- Need(record.Active());
      var e :- AddDevice(chain[0], record, signer, drawn);
      Ok([e] + chain)
    case Revoke(id, signer, drawn) =>
      var e :- RevokeDevice(chain[0], id, signer, drawn);
      Ok([e] + chain)
    case Recover(back, signer, drawn) =>
      var _ :- Need(back < |chain|);
      var e :- Publish(chain[back], chain[back].manifest.refs, None, signer, drawn);
      Ok([e] + chain[back..])
  }

  /** The chain after each operation in turn; a refused operation changes nothing. */
  function Run(ops: seq<Operation>, chain: seq<Entry>): seq<Entry>
    requires chain != []
    decreases |ops|
  {
    if ops == [] then chain
    else
      var next := Apply(ops[0], chain);
      Run(ops[1..], if next.Ok? && next.value != [] then next.value else chain)
  }

  /** Pack IDs are digests of randomized ciphertext, so no push repeats one. */
  ghost predicate FreshPacks(ops: seq<Operation>, chain: seq<Entry>)
    requires chain != []
    decreases |ops|
  {
    ops != [] ==>
      && (ops[0].PublishRefs? ==> FreshPack(chain, ops[0].pack))
      && var next := Apply(ops[0], chain);
         FreshPacks(ops[1..], if next.Ok? && next.value != [] then next.value else chain)
  }

  lemma StoredManifest(
    previous: Option<Entry>, policy: PolicyState, parentPolicy: Option<PolicyState>, key: Key, m: Manifest,
    signer: KeyFile, draws: Draws, e: Entry)
    requires SealAndStore(previous, policy, parentPolicy, key, m, signer, draws) == Ok(e)
    requires previous.Some?
    ensures e.manifest == m && e.policy == policy && e.key == key && e.signer == signer.Id()
  {
    hide ValidPackDelta, ValidLayout, ValidAudit, ValidEnvelopeCount, EnvelopePairs, OpenManifest, VerifyManifest,
      UnwrapPredecessorKey, ValidBody;
    var pairs := EnvelopePairs(policy, m, key, draws).value;
    SealedOpens(signer, m, key, EnvelopesOf(pairs), AuditOf(pairs), draws);
  }

  lemma PublishExtends(chain: seq<Entry>, root: Root, refs: Refs, pack: Option<NewPack>, signer: KeyFile, drawn: Drawn)
    requires Authentic(chain, root)
    requires FreshPack(chain, pack)
    requires Publish(chain[0], refs, pack, signer, drawn).Ok?
    ensures Authentic([Publish(chain[0], refs, pack, signer, drawn).value] + chain, root)
  {
    hide Authentic, SealAndStore;
    var m := WriterManifest(chain[0], refs, pack, drawn).value;
    var e := Publish(chain[0], refs, pack, signer, drawn).value;
    StoredManifest(Some(chain[0]), chain[0].policy, None, drawn.key, m, signer, drawn.draws, e);
    assert PackIds(m.newPacks) <= if pack.Some? then {pack.value.id} else {};
    StoredIsAuthentic(chain, root, chain[0].policy, None, drawn.key, m, signer, drawn.draws, e);
  }

  lemma ChangeExtends(chain: seq<Entry>, root: Root, devices: seq<DeviceRecord>, signer: KeyFile, drawn: Drawn)
    requires Authentic(chain, root)
    requires ChangePolicy(chain[0], devices, signer, drawn).Ok?
    ensures Authentic([ChangePolicy(chain[0], devices, signer, drawn).value] + chain, root)
  {
    hide Authentic, SealAndStore, Successor, ValidateSuccessor, Parse;
    var parent := chain[0].policy;
    SuccessorSucceeds(parent, devices, signer);
    var policy := Successor(parent, devices, signer).value;
    var m := TransitionManifest(chain[0], policy.0, policy.1, drawn).value;
    var e := ChangePolicy(chain[0], devices, signer, drawn).value;
    StoredManifest(Some(chain[0]), policy.0, Some(parent), drawn.key, m, signer, drawn.draws, e);
    StoredIsAuthentic(chain, root, policy.0, Some(parent), drawn.key, m, signer, drawn.draws, e);
  }

  lemma OperationExtends(op: Operation, chain: seq<Entry>, root: Root)
    requires Authentic(chain, root)
    requires op.PublishRefs? ==> FreshPack(chain, op.pack)
    requires Apply(op, chain).Ok?
    ensures Authentic(Apply(op, chain).value, root)
  {
    hide Authentic, Publish, ChangePolicy, FindDevice, ValidActiveRoles;
    match op
    case PublishRefs(refs, pack, signer, drawn) =>
      PublishExtends(chain, root, refs, pack, signer, drawn);
    case Add(record, signer, drawn) =>
      ChangeExtends(chain, root, chain[0].policy.body.devices + [record], signer, drawn);
    case Revoke(id, signer, drawn) =>
      var stamp := chain[0].policy.body.generation + 1;
      ChangeExtends(chain, root, Revoked(chain[0].policy.body.devices, id, stamp), signer, drawn);
    case Recover(back, signer, drawn) =>
      AuthenticSuffix(chain, root, back);
      assert chain[back..][0] == chain[back];
      PublishExtends(chain[back..], root, chain[back].manifest.refs, None, signer, drawn);
  }

  /** Every chain that the operations build on an accepted one is accepted. */
  lemma {:induction false} RunIsAuthentic(ops: seq<Operation>, chain: seq<Entry>, root: Root)
    requires Authentic(chain, root)
    requires FreshPacks(ops, chain)
    ensures Authentic(Run(ops, chain), root)
    decreases |ops|
  {
    hide Authentic, Apply, FreshPack;
    if ops != [] {
      var next := Apply(ops[0], chain);
      if next.Ok? {
        OperationExtends(ops[0], chain, root);
        RunIsAuthentic(ops[1..], next.value, root);
      } else {
        RunIsAuthentic(ops[1..], chain, root);
      }
    }
  }

  /** From an owner's initialization on, whatever the devices do, every active
      reader of the current head opens the whole chain from any storage that
      serves it. */
  lemma RepositoryStaysReadable(
    owner: KeyFile, ownerName: string, drawn: Drawn, ops: seq<Operation>, read: Reader, reader: KeyFile)
    requires owner.root == RootOf(owner.signing, owner.wrapping)
    requires Initialize(None, None, owner, ownerName, drawn).Ok?
    requires FreshPacks(ops, [Initialize(None, None, owner, ownerName, drawn).value])
    requires reader.root == owner.root
    requires var chain := Run(ops, [Initialize(None, None, owner, ownerName, drawn).value]);
      chain != [] && Served(read, chain) && chain[0].policy.IsActiveReader(reader.Id())
    ensures var chain := Run(ops, [Initialize(None, None, owner, ownerName, drawn).value]);
      OpenChain(read, chain[0].id, reader) == Ok(chain)
  {
    hide Authentic, Initialize, Run, FreshPacks, OpenChain, FindDevice;
    InitializeIsAuthenticIff(None, None, owner, ownerName, drawn);
    RunIsAuthentic(ops, [Initialize(None, None, owner, ownerName, drawn).value], owner.root);
    EveryReaderOpensTheChain(read, Run(ops, [Initialize(None, None, owner, ownerName, drawn).value]), reader);
  }

  // ---------------------------------------------------------------------------
  // Accepted chains exist

  function SampleDrawn(): Drawn {
    Drawn(Key(0), 0, Draws((i: nat) => i, (i: nat) => DummyDraw(0, 5000 + i, 0, Key(1 + i)), 0, 1))
  }

  predicate SampleHead(head: Entry) {
    var policy := Genesis(KeyFile(RootOf(1, 1), 1, 1), "owner");
    policy.Ok? && head.policy == policy.value.0 && head.manifest.totalPackCount == 0
  }

  /** One owner who publishes again and again builds accepted chains of every
      length that a generation number can count. */
  lemma {:induction false} AcceptedChainsExist(length: nat) returns (chain: seq<Entry>)
    requires 1 <= length <= 0x1_0000_0000_0000_0000
    ensures |chain| == length && Authentic(chain, RootOf(1, 1))
    ensures SampleHead(chain[0])
    decreases length
  {
    hide Authentic, Initialize, Publish, FreshSeeds, DistinctDraws, FindDevice, Genesis;
    var owner, drawn := KeyFile(RootOf(1, 1), 1, 1), SampleDrawn();
    OwnerIsAlone(owner, drawn);
    if length == 1 {
      SampleNames();
      InitializeSucceeds(None, None, owner, "owner", drawn);
      InitializeIsAuthenticIff(None, None, owner, "owner", drawn);
      chain := [Initialize(None, None, owner, "owner", drawn).value];
    } else {
      var older := AcceptedChainsExist(length - 1);
      ChainShape(older, RootOf(1, 1));
      PublishIsAuthentic(older, RootOf(1, 1), map[], None, owner, drawn);
      chain := [Publish(older[0], map[], None, owner, drawn).value] + older;
    }
  }

  lemma OwnerIsAlone(owner: KeyFile, drawn: Drawn)
    requires owner == KeyFile(RootOf(1, 1), 1, 1) && drawn == SampleDrawn()
    ensures FreshSeeds(drawn.draws) && DistinctDraws(1, drawn.draws)
    ensures Genesis(owner, "owner").Ok?
    ensures Genesis(owner, "owner").value.0.IsActiveWriter(owner.Id())
  {
    hide PaddedCount;
    SampleNames();
    GenesisBody(owner, "owner");
    var policy := Genesis(owner, "owner").value.0;
    var record := DeviceRecord(owner.Public(), "owner", OWNER, None);
    assert policy.body.devices == [record];
    assert ActiveReaders(policy.body.devices) == [record];
    assert FindDevice(policy.body.devices, owner.Id()) == Some(record);
  }
}
