/** The signed device registry: src/policy.rs. */
module Policy {
  import opened Prelude

  /** Ideal digests of public keys: distinct keys have distinct names. */
  datatype Root = RootOf(signing: nat, wrapping: nat) | OtherRoot(name: nat)
  datatype DeviceId = DeviceIdOf(signing: nat, wrapping: nat) | OtherDevice(name: nat)

  /** A device's private key file. A key pair is named by one number, which
      stands for the private half here and for the public half elsewhere. */
  datatype KeyFile = KeyFile(root: Root, signing: nat, wrapping: nat) {
    function Id(): DeviceId {
      DeviceIdOf(signing, wrapping)
    }

    function Public(): PublicDevice {
      PublicDevice(root, Id(), signing, wrapping)
    }
  }

  datatype PublicDevice = PublicDevice(root: Root, deviceId: DeviceId, signing: nat, wrapping: nat)

  /** An ideal signature verifies exactly for the key and message it was made with. */
  datatype Signature<+M> = Signed(key: nat, message: M) | Forged(name: nat)

  datatype Roles = Roles(reader: bool, writer: bool, administrator: bool)

  const OWNER := Roles(true, true, true)

  datatype DeviceRecord = DeviceRecord(public: PublicDevice, name: string, roles: Roles, revokedAt: Option<u64>) {
    predicate Active() {
      revokedAt.None?
    }

    predicate ActiveReader() {
      Active() && roles.reader
    }

    predicate ActiveWriter() {
      Active() && roles.writer
    }

    predicate ActiveAdmin() {
      Active() && roles.administrator
    }
  }

  datatype PolicyBody = PolicyBody(
    formatVersion: nat, root: Root, generation: u64, previous: Option<PolicyId>,
    adminThreshold: nat, devices: seq<DeviceRecord>)

  datatype PolicySignature = PolicySignature(deviceId: DeviceId, signature: Signature<Text<PolicyBody>>)

  datatype PolicyObject = PolicyObject(body: Text<PolicyBody>, signatures: seq<PolicySignature>)

  type PolicyBytes = Text<PolicyObject>

  datatype PolicyId = PolicyIdOf(bytes: PolicyBytes) | OtherPolicy(name: nat)

  datatype PolicyState = PolicyState(
    id: PolicyId, body: PolicyBody, exactBody: Text<PolicyBody>, signatures: seq<PolicySignature>)
  {
    function Device(id: DeviceId): Option<DeviceRecord> {
      FindDevice(body.devices, id)
    }

    predicate IsActiveReader(id: DeviceId) {
      Device(id).Some? && Device(id).value.ActiveReader()
    }

    predicate IsActiveWriter(id: DeviceId) {
      Device(id).Some? && Device(id).value.ActiveWriter()
    }

    predicate IsActiveAdmin(id: DeviceId) {
      Device(id).Some? && Device(id).value.ActiveAdmin()
    }
  }

  function FindDevice(devices: seq<DeviceRecord>, id: DeviceId): (r: Option<DeviceRecord>)
    ensures r.Some? ==> r.value in devices && r.value.public.deviceId == id
    ensures r.None? ==> forall d <- devices :: d.public.deviceId != id
  {
    if devices == [] then None
    else if devices[0].public.deviceId == id then Some(devices[0])
    else FindDevice(devices[1..], id)
  }

  // ---------------------------------------------------------------------------
  // Registry checks

  const MAX_NAME_BYTES: nat := 64

  /** The length of one character in UTF-8. */
  function Utf8Width(c: char): nat {
    if c as int < 0x80 then 1 else if c as int < 0x800 then 2 else if c as int < 0x10000 then 3 else 4
  }

  function Utf8Length(name: string): nat {
    if name == [] then 0 else Utf8Width(name[0]) + Utf8Length(name[1..])
  }

  /** Unicode white space, which `trim` removes. */
  predicate IsWhitespace(c: char) {
    var u := c as int;
    || 0x9 <= u <= 0xD || u == 0x20 || u == 0x85 || u == 0xA0 || u == 0x1680 || 0x2000 <= u <= 0x200A
    || u == 0x2028 || u == 0x2029 || u == 0x202F || u == 0x205F || u == 0x3000
  }

  predicate IsControlOrInvisible(c: char) {
    var u := c as int;
    || u < 0x20 || 0x7F <= u <= 0x9F
    || u == 0xAD || u == 0x61C || u == 0x180E || 0x200B <= u <= 0x200F || 0x202A <= u <= 0x202E
    || 0x2060 <= u <= 0x206F || u == 0xFEFF
  }

  /** `validate_device_label` */
  predicate ValidName(name: string) {
    && name != [] && Utf8Length(name) <= MAX_NAME_BYTES
    && !IsWhitespace(name[0]) && !IsWhitespace(name[|name| - 1])
    && forall c <- name :: !IsControlOrInvisible(c)
  }

  predicate ValidPublicDevice(device: PublicDevice) {
    device.deviceId == DeviceIdOf(device.signing, device.wrapping)
  }

  predicate ValidRecord(device: DeviceRecord) {
    && ValidPublicDevice(device.public)
    && ValidName(device.name)
    && (device.roles.writer ==> device.roles.reader)
    && (device.roles.administrator ==> device.roles.reader)
  }

  predicate DistinctIds(devices: seq<DeviceRecord>) {
    forall i, j :: 0 <= i < j < |devices| ==> devices[i].public.deviceId != devices[j].public.deviceId
  }

  predicate DistinctActiveNames(devices: seq<DeviceRecord>) {
    forall i, j :: 0 <= i < j < |devices| && devices[i].Active() && devices[j].Active() ==>
      devices[i].name != devices[j].name
  }

  predicate ValidDevices(devices: seq<DeviceRecord>) {
    && (forall d <- devices :: ValidRecord(d))
    && DistinctIds(devices)
    && DistinctActiveNames(devices)
  }

  /** `validate_devices`: one pass that fills two sets decides exactly the
      pairwise conditions. */
  method ValidateDevices(devices: seq<DeviceRecord>) returns (r: Result<()>)
    ensures r.Ok? <==> ValidDevices(devices)
    ensures r.Err? ==> r.causes == {Rejected}
  {
    var ids: set<DeviceId> := {};
    var activeNames: set<string> := {};
    for i := 0 to |devices|
      invariant forall d <- devices[..i] :: ValidRecord(d)
      invariant ids == set d | d in devices[..i] :: d.public.deviceId
      invariant activeNames == set d | d in devices[..i] && d.Active() :: d.name
      invariant DistinctIds(devices[..i])
      invariant DistinctActiveNames(devices[..i])
    {
      var device := devices[i];
      assert devices[..i + 1] == devices[..i] + [device];
      if !ValidPublicDevice(device.public) || device.public.deviceId in ids || !ValidName(device.name) {
        assert device in devices;
        return Err({Rejected});
      }
      if device.Active() && device.name in activeNames {
        return Err({Rejected});
      }
      if (device.roles.writer || device.roles.administrator) && !device.roles.reader {
        assert device in devices;
        return Err({Rejected});
      }
      ids := ids + {device.public.deviceId};
      if device.Active() {
        activeNames := activeNames + {device.name};
      }
    }
    assert devices[..|devices|] == devices;
    return Ok(());
  }

  predicate ValidActiveRoles(devices: seq<DeviceRecord>) {
    && (exists d <- devices :: d.ActiveReader())
    && (exists d <- devices :: d.ActiveAdmin())
  }

  predicate ValidDeviceRoots(body: PolicyBody) {
    forall d <- body.devices :: d.public.root == body.root
  }

  predicate ValidBody(body: PolicyBody) {
    ValidDevices(body.devices) && ValidDeviceRoots(body) && ValidActiveRoles(body.devices)
  }

  // ---------------------------------------------------------------------------
  // Construction and parsing

  function Create(body: PolicyBody, signer: KeyFile): Result<(PolicyState, PolicyBytes)> {
    var _ :- Need(ValidBody(body));
    var exactBody := Encode(body);
    var signatures := [PolicySignature(signer.Id(), Signed(signer.signing, exactBody))];
    var bytes := Encode(PolicyObject(exactBody, signatures));
    Ok((PolicyState(PolicyIdOf(bytes), body, exactBody, signatures), bytes))
  }

  function Genesis(key: KeyFile, ownerName: string): Result<(PolicyState, PolicyBytes)> {
    Create(PolicyBody(FORMAT_VERSION, key.root, 0, None, 1,
                      [DeviceRecord(key.Public(), ownerName, OWNER, None)]), key)
  }

  /** The byte order of device IDs. */
  predicate IdBefore(a: DeviceId, b: DeviceId) {
    match (a, b)
    case (DeviceIdOf(s, w), DeviceIdOf(s', w')) => s < s' || (s == s' && w <= w')
    case (DeviceIdOf(_, _), OtherDevice(_)) => true
    case (OtherDevice(_), DeviceIdOf(_, _)) => false
    case (OtherDevice(n), OtherDevice(n')) => n <= n'
  }

  function InsertById(device: DeviceRecord, sorted: seq<DeviceRecord>): (r: seq<DeviceRecord>)
    ensures multiset(r) == multiset(sorted) + multiset{device}
  {
    if sorted == [] || IdBefore(device.public.deviceId, sorted[0].public.deviceId) then
      [device] + sorted
    else
      assert sorted == [sorted[0]] + sorted[1..];
      [sorted[0]] + InsertById(device, sorted[1..])
  }

  function SortById(devices: seq<DeviceRecord>): (r: seq<DeviceRecord>)
    ensures multiset(r) == multiset(devices)
  {
    if devices == [] then []
    else
      assert devices == [devices[0]] + devices[1..];
      InsertById(devices[0], SortById(devices[1..]))
  }

  function Successor(parent: PolicyState, devices: seq<DeviceRecord>, signer: KeyFile)
    : Result<(PolicyState, PolicyBytes)>
  {
    var next := CheckedSuccessor(parent.body.generation);
    var _ :- Need(next.Some?);
    Create(PolicyBody(FORMAT_VERSION, parent.body.root, next.value, Some(parent.id), 1, SortById(devices)), signer)
  }

  function Parse(bytes: PolicyBytes): Result<PolicyState> {
    var _ :- Need(bytes.Text?);
    var parsed := bytes.value;
    var _ :- Need(parsed.body.Text?);
    var body := parsed.body.value;
    var _ :- Supported(body.formatVersion == FORMAT_VERSION);
    var _ :- Need(body.adminThreshold != 0);
    var _ :- Supported(body.adminThreshold == 1);
    var _ :- Need(ValidBody(body));
    Ok(PolicyState(PolicyIdOf(bytes), body, parsed.body, parsed.signatures))
  }

  // ---------------------------------------------------------------------------
  // Validation against the parent

  function FindAdmin(devices: seq<DeviceRecord>, id: DeviceId): (r: Option<DeviceRecord>)
    ensures r.Some? ==> r.value in devices && r.value.public.deviceId == id && r.value.ActiveAdmin()
    ensures r.None? ==> forall d <- devices :: !(d.public.deviceId == id && d.ActiveAdmin())
  {
    if devices == [] then None
    else if devices[0].public.deviceId == id && devices[0].ActiveAdmin() then Some(devices[0])
    else FindAdmin(devices[1..], id)
  }

  function VerifyAgainstAdmins(policy: PolicyState, devices: seq<DeviceRecord>): Result<()> {
    var _ :- Need(|policy.signatures| == 1);
    var signature := policy.signatures[0];
    var signer := FindAdmin(devices, signature.deviceId);
    var _ :- Need(signer.Some?);
    var _ :- Need(signature.signature == Signed(signer.value.public.signing, policy.exactBody));
    Ok(())
  }

  function ValidateGenesis(policy: PolicyState, expectedRoot: Root): Result<()> {
    var _ :- Need(policy.body.generation == 0 && policy.body.previous.None?);
    var _ :- Need(policy.body.root == expectedRoot);
    var _ :- Need(|policy.body.devices| == 1);
    var owner := policy.body.devices[0];
    var _ :- Need(owner.roles == OWNER && owner.Active() && RootOf(owner.public.signing, owner.public.wrapping) == expectedRoot);
    var _ :- Need(policy.body.adminThreshold == 1);
    VerifyAgainstAdmins(policy, policy.body.devices)
  }

  /** What one historical record may become in a child policy. */
  predicate RecordKept(before: DeviceRecord, policy: PolicyState) {
    var after := policy.Device(before.public.deviceId);
    && after.Some?
    && after.value.public == before.public
    && after.value.name == before.name
    && (before.revokedAt.Some? ==> after.value.revokedAt == before.revokedAt)
    && (before.revokedAt.None? && after.value.revokedAt.Some? ==>
          after.value.revokedAt == Some(policy.body.generation))
  }

  /** A record of the child is active, was revoked before, or is revoked by this child. */
  predicate RevocationStamped(device: DeviceRecord, parent: PolicyState, generation: u64) {
    var before := parent.Device(device.public.deviceId);
    || device.revokedAt.None?
    || (before.Some? && before.value.revokedAt == device.revokedAt)
    || device.revokedAt == Some(generation)
  }

  function ValidateSuccessor(policy: PolicyState, parent: PolicyState): Result<()> {
    var _ :- Need(policy.body.root == parent.body.root);
    var _ :- Need(CheckedSuccessor(parent.body.generation) == Some(policy.body.generation));
    var _ :- Need(policy.body.previous == Some(parent.id));
    var _ :- Need(parent.body.adminThreshold == 1 && policy.body.adminThreshold == 1);
    var _ :- VerifyAgainstAdmins(policy, parent.body.devices);
    var _ :- Need(forall before <- parent.body.devices :: RecordKept(before, policy));
    var _ :- Need(forall device <- policy.body.devices :: RevocationStamped(device, parent, policy.body.generation));
    var _ :- Need(ValidActiveRoles(policy.body.devices));
    Ok(())
  }
}
