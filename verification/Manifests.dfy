/** One generation of the log: sealing, opening and verifying a manifest
    (src/manifest.rs) over ideal cryptography (src/crypto.rs).

    Every cryptographic value is a free constructor, so a digest, commitment,
    signature or ciphertext equals another exactly when its inputs do. */
module Manifests {
  import opened Prelude
  import opened Policy

  const MIN_ENVELOPES: nat := 4
  const MAX_ENVELOPES: nat := 4096

  // ---------------------------------------------------------------------------
  // Keys and ciphertexts

  /** A random 256-bit generation key. */
  datatype Key = Key(draw: nat)

  datatype SubkeyKind = ManifestBodyKey | PackKey | PredecessorLinkKey | SealedHeaderKey

  /** HKDF output for one context of one generation key. */
  datatype Subkey = Subkey(key: Key, root: Root, generation: u64, kind: SubkeyKind, ordinal: u64)

  datatype Commitment = CommitTo(key: Key) | OtherCommitment(name: nat)

  datatype Aad =
    | BodyAad(root: Root, generation: u64)
    | LinkAad(root: Root, generation: u64, previous: Id)
    | HeaderAad(exactHeader: Text<Header>)

  /** An XChaCha20-Poly1305 box; `Noise` opens under no key. */
  datatype Box<+T> = Sealed(key: Subkey, nonce: nat, aad: Aad, plaintext: T) | Noise(name: nat)

  function OpenBox<T>(box: Box<T>, key: Subkey, aad: Aad): Result<T> {
    if box.Sealed? && box.key == key && box.aad == aad then Ok(box.plaintext) else Err({Rejected})
  }

  datatype EnvelopeAad =
    | GenerationAad(root: Root, generation: u64, recipient: DeviceId, commitment: Commitment)
    | RandomAad(name: nat)

  /** The X25519 point of one encapsulation, ordered as its bytes. A seed fixes
      the point, and different seeds give different points. */
  datatype Encapsulated = Encapsulated(point: nat) | WrongSizeKey(name: nat)

  datatype HpkeBox =
    | HpkeSealed(recipient: nat, seed: nat, aad: EnvelopeAad, key: Key)
    | HpkeNoise(name: nat)
    | WrongSizeBox(name: nat)

  datatype Envelope = Envelope(encapsulated: Encapsulated, ciphertext: HpkeBox)

  /** `wrap_generation_key_with_seed` */
  function WrapWithSeed(recipient: nat, key: Key, aad: EnvelopeAad, seed: nat): Envelope {
    Envelope(Encapsulated(seed), HpkeSealed(recipient, seed, aad, key))
  }

  /** `KeyFile::unwrap_generation_key` */
  function OpenEnvelope(envelope: Envelope, recipient: nat, aad: EnvelopeAad): Result<Key> {
    match envelope.ciphertext
    case HpkeSealed(r, seed, a, key) =>
      if r == recipient && a == aad && envelope.encapsulated == Encapsulated(seed) then Ok(key) else Err({Rejected})
    case _ => Err({Rejected})
  }

  // ---------------------------------------------------------------------------
  // Manifest parts

  type RefName = string
  type Oid = nat
  type Refs = map<RefName, Oid>

  datatype PackDescriptor = PackDescriptor(id: nat, plaintextSize: u64, generation: u64, ordinal: u64)

  datatype Authorization = Writer | PolicyTransition | Checkpoint | Unrecognized(name: nat)

  datatype AuditEntry = Recipient(deviceId: DeviceId, seed: nat) | Dummy

  datatype BodyDigest = BodyDigestOf(box: Box<Text<Body>>) | OtherBodyDigest(name: nat)
  datatype ContentDigest = ContentDigestOf(text: Text<SealedContent>) | OtherContentDigest(name: nat)

  datatype Header = Header(
    formatVersion: nat, root: Root, generation: u64, previous: Option<Id>, commitment: Commitment,
    envelopes: seq<Envelope>, bodyDigest: BodyDigest, contentDigest: ContentDigest)

  datatype SealedContent = SealedContent(
    policyId: PolicyId, policyGeneration: u64, signer: DeviceId, authorization: Authorization,
    totalPackCount: u64, audit: seq<AuditEntry>)

  datatype SignedParts = SignedParts(header: Text<Header>, content: Text<SealedContent>, bodyDigest: BodyDigest)

  datatype SealedHeader = SealedHeader(content: Text<SealedContent>, signature: Signature<SignedParts>)

  datatype Body = Body(
    refs: Refs, newPacks: seq<PackDescriptor>, predecessorKeyWrap: Option<Box<Key>>,
    introducedPolicy: Option<PolicyBytes>)

  datatype ManifestEnvelope = ManifestEnvelope(
    header: Text<Header>, sealedHeader: Box<Text<SealedHeader>>, body: Box<Text<Body>>)

  /** The stored bytes of one manifest, and the content ID that names them. */
  type Blob = Text<ManifestEnvelope>
  datatype Id = ObjectId(blob: Blob) | OtherId(name: nat)

  datatype Manifest = Manifest(
    formatVersion: nat, root: Root, generation: u64, previous: Option<Id>, policyId: PolicyId,
    policyGeneration: u64, authorization: Authorization, totalPackCount: u64, refs: Refs,
    newPacks: seq<PackDescriptor>, predecessorKeyWrap: Option<Box<Key>>, introducedPolicy: Option<PolicyBytes>)

  datatype Opened = Opened(
    header: Header, manifest: Manifest, claimedSigner: DeviceId, exactHeader: Text<Header>,
    exactContent: Text<SealedContent>, signature: Signature<SignedParts>)

  // ---------------------------------------------------------------------------
  // Structural checks

  function ManifestGenesis(root: Root, policy: PolicyState, bytes: PolicyBytes): Manifest {
    Manifest(FORMAT_VERSION, root, 0, None, policy.id, policy.body.generation, PolicyTransition, 0,
             map[], [], None, Some(bytes))
  }

  function ValidateManifestPolicy(m: Manifest, policy: PolicyState): Result<()> {
    var _ :- Need(m.formatVersion == FORMAT_VERSION && m.root == policy.body.root
            && m.policyId == policy.id && m.policyGeneration == policy.body.generation);
    Ok(())
  }

  function ValidateIntroducedPolicy(m: Manifest, selected: PolicyState, shouldIntroduce: bool): Result<()> {
    var _ :- Need(m.introducedPolicy.Some? == shouldIntroduce);
    if shouldIntroduce then
      var policy :- Parse(m.introducedPolicy.value);
      var _ :- Need(policy.id == selected.id);
      Ok(())
    else
      Ok(())
  }

  predicate ValidPackDelta(m: Manifest) {
    && (forall i :: 0 <= i < |m.newPacks| ==>
          && m.newPacks[i].generation == m.generation
          && m.newPacks[i].ordinal == i
          && m.newPacks[i].plaintextSize != 0)
    && (forall i, j :: 0 <= i < j < |m.newPacks| ==> m.newPacks[i].id != m.newPacks[j].id)
  }

  method ValidatePackDelta(m: Manifest) returns (r: Result<()>)
    ensures r.Ok? <==> ValidPackDelta(m)
    ensures r.Err? ==> r.causes == {Rejected}
  {
    var ids: set<nat> := {};
    for index := 0 to |m.newPacks|
      invariant ids == set i | 0 <= i < index :: m.newPacks[i].id
      invariant forall i :: 0 <= i < index ==>
        m.newPacks[i].generation == m.generation && m.newPacks[i].ordinal == i && m.newPacks[i].plaintextSize != 0
      invariant forall i, j :: 0 <= i < j < index ==> m.newPacks[i].id != m.newPacks[j].id
    {
      var pack := m.newPacks[index];
      if pack.generation != m.generation || pack.ordinal != index || pack.plaintextSize == 0 || pack.id in ids {
        return Err({Rejected});
      }
      ids := ids + {pack.id};
    }
    return Ok(());
  }

  function ValidateManifestGenesis(m: Manifest, policy: PolicyState): Result<()> {
    var _ :- ValidateManifestPolicy(m, policy);
    var _ :- ValidateIntroducedPolicy(m, policy, true);
    var _ :- Need(m.generation == 0 && m.previous.None? && m.authorization == PolicyTransition
            && m.totalPackCount == 0 && m.refs == map[] && m.newPacks == [] && m.predecessorKeyWrap.None?);
    Ok(())
  }

  function ValidateManifestSuccessor(m: Manifest, previousId: Id, previous: Manifest, selected: PolicyState)
    : Result<()>
  {
    var _ :- ValidateManifestPolicy(m, selected);
    var _ :- Need(m.root == previous.root);
    var _ :- Need(CheckedSuccessor(previous.generation) == Some(m.generation));
    var _ :- Need(m.previous == Some(previousId));
    var _ :- Need(m.predecessorKeyWrap.Some?);
    var _ :- Need(ValidPackDelta(m));
    var _ :- Need(previous.totalPackCount + |m.newPacks| < 0x1_0000_0000_0000_0000);
    var _ :- Need(m.totalPackCount == previous.totalPackCount + |m.newPacks|);
    match m.authorization
    case Writer =>
      var _ :- ValidateIntroducedPolicy(m, selected, false);
      var _ :- Need(m.policyId == previous.policyId && m.policyGeneration == previous.policyGeneration);
      Ok(())
    case PolicyTransition =>
      var _ :- ValidateIntroducedPolicy(m, selected, true);
      var _ :- Need(CheckedSuccessor(previous.policyGeneration) == Some(m.policyGeneration)
              && selected.body.previous == Some(previous.policyId));
      var _ :- Need(m.refs == previous.refs && m.newPacks == []);
      Ok(())
    case _ =>
      Err({Unsupported})
  }

  predicate PowerOfTwo(n: nat) {
    n == 1 || (n > 1 && n % 2 == 0 && PowerOfTwo(n / 2))
  }

  predicate ValidEnvelopeCount(n: nat) {
    MIN_ENVELOPES <= n <= MAX_ENVELOPES && PowerOfTwo(n)
  }

  function ValidatePublicHeader(header: Header): Result<()> {
    var _ :- Supported(header.formatVersion == FORMAT_VERSION);
    var _ :- Need(ValidEnvelopeCount(|header.envelopes|));
    Ok(())
  }

  predicate WellSized(envelope: Envelope) {
    envelope.encapsulated.Encapsulated? && !envelope.ciphertext.WrongSizeBox?
  }

  /** Right sizes, and strictly increasing encapsulated keys. */
  predicate ValidLayout(envelopes: seq<Envelope>) {
    && (forall i :: 0 <= i < |envelopes| ==> WellSized(envelopes[i]))
    && (forall i, j :: 0 <= i < j < |envelopes| ==>
          envelopes[i].encapsulated.point < envelopes[j].encapsulated.point)
  }

  method ValidateEnvelopeLayout(envelopes: seq<Envelope>) returns (r: Result<()>)
    ensures r.Ok? <==> ValidLayout(envelopes)
    ensures r.Err? ==> r.causes == {Rejected}
  {
    var previous: Option<nat> := None;
    for i := 0 to |envelopes|
      invariant ValidLayout(envelopes[..i])
      invariant i == 0 ==> previous == None
      invariant i > 0 ==> WellSized(envelopes[i - 1]) && previous == Some(envelopes[i - 1].encapsulated.point)
    {
      var envelope := envelopes[i];
      if !WellSized(envelope) {
        assert envelope in envelopes;
        return Err({Rejected});
      }
      if previous.Some? && previous.value >= envelope.encapsulated.point {
        return Err({Rejected});
      }
      previous := Some(envelope.encapsulated.point);
      assert envelopes[..i + 1] == envelopes[..i] + [envelope];
    }
    assert envelopes[..|envelopes|] == envelopes;
    return Ok(());
  }

  // ---------------------------------------------------------------------------
  // Generation-key envelopes

  function ActiveReaders(devices: seq<DeviceRecord>): (r: seq<DeviceRecord>)
    ensures forall d :: d in r <==> d in devices && d.ActiveReader()
    ensures |r| <= |devices|
  {
    if devices == [] then []
    else if devices[0].ActiveReader() then [devices[0]] + ActiveReaders(devices[1..])
    else ActiveReaders(devices[1..])
  }

  function ReaderIds(policy: PolicyState): set<DeviceId> {
    set d | d in policy.body.devices && d.ActiveReader() :: d.public.deviceId
  }

  function EnvelopeFor(header: Header, device: DeviceRecord, key: Key, seed: nat): Envelope {
    WrapWithSeed(device.public.wrapping, key,
                 GenerationAad(header.root, header.generation, device.public.deviceId, header.commitment), seed)
  }

  /** The audit names every active reader exactly once, and each named envelope
      is the one that reader's seed produces. */
  predicate ValidAudit(header: Header, audit: seq<AuditEntry>, policy: PolicyState, key: Key) {
    && |audit| == |header.envelopes|
    && (forall i :: 0 <= i < |audit| && audit[i].Recipient? ==>
          var device := policy.Device(audit[i].deviceId);
          && audit[i].deviceId in ReaderIds(policy)
          && device.Some?
          && header.envelopes[i] == EnvelopeFor(header, device.value, key, audit[i].seed))
    && (forall i, j :: 0 <= i < j < |audit| && audit[i].Recipient? && audit[j].Recipient? ==>
          audit[i].deviceId != audit[j].deviceId)
    && (forall id <- ReaderIds(policy) :: 
          exists i :: 0 <= i < |audit| && audit[i].Recipient? && audit[i].deviceId == id)
  }

  function AuditedIds(audit: seq<AuditEntry>): set<DeviceId> {
    set entry | entry in audit && entry.Recipient? :: entry.deviceId
  }

  method ValidateEnvelopeAudit(header: Header, audit: seq<AuditEntry>, policy: PolicyState, key: Key)
    returns (r: Result<()>)
    ensures r.Ok? <==> ValidAudit(header, audit, policy, key)
    ensures r.Err? ==> r.causes == {Rejected}
  {
    if |audit| != |header.envelopes| {
      return Err({Rejected});
    }
    var active := ReaderIds(policy);
    var audited: set<DeviceId> := {};
    for i := 0 to |audit|
      invariant audited == AuditedIds(audit[..i])
      invariant forall k :: 0 <= k < i && audit[k].Recipient? ==>
        var device := policy.Device(audit[k].deviceId);
        && audit[k].deviceId in active
        && device.Some?
        && header.envelopes[k] == EnvelopeFor(header, device.value, key, audit[k].seed)
      invariant forall k, l :: 0 <= k < l < i && audit[k].Recipient? && audit[l].Recipient? ==>
        audit[k].deviceId != audit[l].deviceId
    {
      var entry := audit[i];
      assert audit[..i + 1] == audit[..i] + [entry];
      if entry.Recipient? {
        if entry.deviceId !in active {
          return Err({Rejected});
        }
        if entry.deviceId in audited {
          ghost var prior :| prior in audit[..i] && prior.Recipient? && prior.deviceId == entry.deviceId;
          ghost var k :| 0 <= k < i && audit[k] == prior;
          return Err({Rejected});
        }
        var recipient := policy.Device(entry.deviceId);
        if recipient.None? || header.envelopes[i] != EnvelopeFor(header, recipient.value, key, entry.seed) {
          return Err({Rejected});
        }
        audited := audited + {entry.deviceId};
      }
    }
    assert audit[..|audit|] == audit;
    if audited != active {
      assert exists id :: id in active && id !in audited;
      return Err({Rejected});
    }
    return Ok(());
  }

  // ---------------------------------------------------------------------------
  // Opening and verifying

  function PeekHeader(blob: Blob): Result<Header> {
    var _ :- Need(blob.Text?);
    var _ :- Need(blob.value.header.Text?);
    var header := blob.value.header.value;
    var _ :- ValidatePublicHeader(header);
    Ok(header)
  }

  function FirstOpening(envelopes: seq<Envelope>, recipient: nat, aad: EnvelopeAad, commitment: Commitment)
    : (r: Result<Key>)
    ensures r.Ok? ==> CommitTo(r.value) == commitment
    ensures r.Ok? ==> exists e <- envelopes :: OpenEnvelope(e, recipient, aad) == r
    ensures r.Err? ==> r.causes == {NotActiveReader}
  {
    if envelopes == [] then Err({NotActiveReader})
    else
      var unsealed := OpenEnvelope(envelopes[0], recipient, aad);
      if unsealed.Ok? && CommitTo(unsealed.value) == commitment then unsealed
      else FirstOpening(envelopes[1..], recipient, aad, commitment)
  }

  /** `unwrap_generation_key`: the first envelope of the header that opens for
      this device to the committed key. */
  function UnwrapGenerationKey(header: Header, key: KeyFile): Result<Key> {
    var _ :- Require(key.root == header.root, ForeignRepository);
    var _ :- ValidatePublicHeader(header);
    FirstOpening(header.envelopes, key.wrapping,
                 GenerationAad(header.root, header.generation, key.Id(), header.commitment), header.commitment)
  }

  function SubkeyOf(key: Key, header: Header, kind: SubkeyKind): Subkey {
    Subkey(key, header.root, header.generation, kind, 0)
  }

  function OpenManifest(blob: Blob, key: Key): (r: Result<Opened>)
    ensures r.Ok? ==>
      && PeekHeader(blob) == Ok(r.value.header)
      && CommitTo(key) == r.value.header.commitment
      && r.value.exactContent.Text? && r.value.claimedSigner == r.value.exactContent.value.signer
      && r.value.manifest.root == r.value.header.root
      && r.value.manifest.generation == r.value.header.generation
      && r.value.manifest.previous == r.value.header.previous
      && (r.value.manifest.generation == 0 <==> r.value.manifest.previous.None?)
      && (r.value.manifest.generation == 0 <==> r.value.manifest.predecessorKeyWrap.None?)
  {
    var header :- PeekHeader(blob);
    var _ :- Need(CommitTo(key) == header.commitment);
    var _ :- Need(header.bodyDigest == BodyDigestOf(blob.value.body));
    var sealedText :- OpenBox(blob.value.sealedHeader, SubkeyOf(key, header, SealedHeaderKey),
                              HeaderAad(blob.value.header));
    var _ :- Need(sealedText.Text?);
    var content := sealedText.value.content;
    var _ :- Need(header.contentDigest == ContentDigestOf(content));
    var _ :- Need(content.Text?);
    var _ :- Supported(!content.value.authorization.Unrecognized?);
    var _ :- Need(content == Encode(content.value));
    var bodyText :- OpenBox(blob.value.body, SubkeyOf(key, header, ManifestBodyKey),
                            BodyAad(header.root, header.generation));
    var _ :- Need(bodyText.Text?);
    var body := bodyText.value;
    var _ :- Need(body.introducedPolicy.Some? ==> body.introducedPolicy.value.Text?);
    var manifest := Manifest(
      header.formatVersion, header.root, header.generation, header.previous,
      content.value.policyId, content.value.policyGeneration, content.value.authorization,
      content.value.totalPackCount, body.refs, body.newPacks, body.predecessorKeyWrap, body.introducedPolicy);
    var _ :- Need(ValidPackDelta(manifest));
    var _ :- Need((manifest.generation == 0) == manifest.predecessorKeyWrap.None?);
    var _ :- Need((manifest.generation == 0) == manifest.previous.None?);
    Ok(Opened(header, manifest, content.value.signer, blob.value.header, content, sealedText.value.signature))
  }

  /** The device whose signature `verify_manifest` demands. */
  function Authorizing(unsealed: Opened, selected: PolicyState, parent: Option<PolicyState>): Result<DeviceRecord> {
    match unsealed.manifest.authorization
    case Writer =>
      var device := selected.Device(unsealed.claimedSigner);
      var _ :- Need(device.Some? && device.value.ActiveWriter());
      Ok(device.value)
    case PolicyTransition =>
      var device := (if parent.Some? then parent.value else selected).Device(unsealed.claimedSigner);
      var _ :- Need(device.Some? && device.value.ActiveAdmin());
      Ok(device.value)
    case _ =>
      Err({Unsupported})
  }

  function VerifyManifest(unsealed: Opened, selected: PolicyState, parent: Option<PolicyState>, key: Key): Result<()> {
    var _ :- ValidateManifestPolicy(unsealed.manifest, selected);
    var _ :- ValidatePublicHeader(unsealed.header);
    var _ :- Need(ValidLayout(unsealed.header.envelopes));
    var _ :- Need(unsealed.manifest.formatVersion == unsealed.header.formatVersion
            && unsealed.manifest.root == unsealed.header.root
            && unsealed.manifest.generation == unsealed.header.generation
            && unsealed.manifest.previous == unsealed.header.previous);
    var _ :- Need(unsealed.exactContent.Text?);
    var content := unsealed.exactContent.value;
    var _ :- Need(unsealed.exactContent == Encode(content)
            && content.policyId == unsealed.manifest.policyId
            && content.policyGeneration == unsealed.manifest.policyGeneration
            && content.authorization == unsealed.manifest.authorization
            && content.totalPackCount == unsealed.manifest.totalPackCount);
    var device :- Authorizing(unsealed.(claimedSigner := content.signer), selected, parent);
    var _ :- Need(unsealed.signature == Signed(device.public.signing,
                                       SignedParts(unsealed.exactHeader, unsealed.exactContent, unsealed.header.bodyDigest)));
    var _ :- Need(ValidAudit(unsealed.header, content.audit, selected, key));
    Ok(())
  }

  // ---------------------------------------------------------------------------
  // Predecessor links

  function WrapPredecessorKey(key: Key, previousKey: Key, root: Root, generation: u64, previous: Id, nonce: nat)
    : Box<Key>
  {
    Sealed(Subkey(key, root, generation, PredecessorLinkKey, 0), nonce, LinkAad(root, generation, previous), previousKey)
  }

  function UnwrapPredecessorKey(key: Key, m: Manifest, parentHeader: Header): (r: Result<Key>)
    ensures r.Ok? ==> parentHeader.generation + 1 == m.generation && CommitTo(r.value) == parentHeader.commitment
  {
    var _ :- Need(m.previous.Some?);
    var _ :- Need(m.predecessorKeyWrap.Some?);
    var _ :- Need(CheckedSuccessor(parentHeader.generation) == Some(m.generation) && parentHeader.root == m.root);
    var previousKey :- OpenBox(m.predecessorKeyWrap.value,
                               Subkey(key, m.root, m.generation, PredecessorLinkKey, 0),
                               LinkAad(m.root, m.generation, m.previous.value));
    var _ :- Need(CommitTo(previousKey) == parentHeader.commitment);
    Ok(previousKey)
  }
}
