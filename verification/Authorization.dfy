/** Who may have signed what, over whole accepted chains. */
module Authorization {
  import opened Prelude
  import opened Policy
  import opened Manifests
  import opened Chain
  import opened Authenticity

  // ---------------------------------------------------------------------------
  // Signatures

  /** The manifest's signature was made by this device's key over the exact
      header, sealed content and body digest of the stored object. */
  predicate SignedBy(e: Entry, device: DeviceRecord) {
    && Opens(e)
    && device.public.deviceId == e.signer
    && var unsealed := Unsealed(e);
    && unsealed.signature ==
         Signed(device.public.signing,
                SignedParts(unsealed.exactHeader, unsealed.exactContent, unsealed.header.bodyDigest))
  }

  /** The policy object carries one signature, by this administrator's key. */
  predicate PolicySignedBy(policy: PolicyState, admin: DeviceRecord) {
    && |policy.signatures| == 1
    && policy.signatures[0].deviceId == admin.public.deviceId
    && policy.signatures[0].signature == Signed(admin.public.signing, policy.exactBody)
  }

  ghost predicate AuthorizedGenesis(e: Entry, root: Root) {
    && |e.policy.body.devices| == 1
    && var owner := e.policy.body.devices[0];
    && owner.roles == OWNER
    && RootOf(owner.public.signing, owner.public.wrapping) == root
    && SignedBy(e, owner)
    && PolicySignedBy(e.policy, owner)
  }

  ghost predicate AuthorizedSuccessor(e: Entry, parent: Entry) {
    if e.manifest.authorization == Writer then
      && e.policy == parent.policy
      && exists device <- parent.policy.body.devices :: device.ActiveWriter() && SignedBy(e, device)
    else
      && e.manifest.authorization == PolicyTransition
      && e.manifest.refs == parent.manifest.refs && e.manifest.newPacks == []
      && (exists device <- parent.policy.body.devices :: device.ActiveAdmin() && SignedBy(e, device))
      && exists admin <- parent.policy.body.devices :: admin.ActiveAdmin() && PolicySignedBy(e.policy, admin)
  }

  lemma GenesisIsAuthorized(e: Entry, root: Root)
    requires AuthenticGenesis(e, root)
    ensures AuthorizedGenesis(e, root)
  {
    hide OpenManifest, ValidAudit, ValidLayout, Parse;
  }

  lemma SuccessorIsAuthorized(e: Entry, parent: Entry)
    requires AuthenticSuccessor(e, parent)
    ensures AuthorizedSuccessor(e, parent)
  {
    hide OpenManifest, UnwrapPredecessorKey, RecordKept, RevocationStamped, ValidAudit, ValidLayout, Parse, ValidPackDelta;
  }

  /** Every entry of an accepted chain is authorized by the policy it inherits,
      and the chain starts at the owner key that the repository root names. */
  lemma {:induction false} ChainIsAuthorized(chain: seq<Entry>, root: Root)
    requires Authentic(chain, root)
    ensures AuthorizedGenesis(chain[|chain| - 1], root)
    ensures forall i :: 0 <= i < |chain| - 1 ==> AuthorizedSuccessor(chain[i], chain[i + 1])
  {
    hide AuthenticGenesis, AuthenticSuccessor, AuthorizedGenesis, AuthorizedSuccessor;
    if |chain| == 1 {
      GenesisIsAuthorized(chain[0], root);
    } else {
      ChainIsAuthorized(chain[1..], root);
      SuccessorIsAuthorized(chain[0], chain[1]);
      forall i | 0 <= i < |chain| - 1
        ensures AuthorizedSuccessor(chain[i], chain[i + 1])
      {
        if i > 0 {
          assert chain[i] == chain[1..][i - 1] && chain[i + 1] == chain[1..][i];
        }
      }
    }
  }

  // ---------------------------------------------------------------------------
  // One policy step

  /** What the child's registry keeps of the parent's. */
  ghost predicate RegistryKept(parent: PolicyState, child: PolicyState) {
    forall before <- parent.body.devices :: RecordKept(before, child)
  }

  /** In a valid registry the first record with an ID is the only one. */
  lemma {:induction false} DeviceIsUnique(devices: seq<DeviceRecord>, device: DeviceRecord)
    requires DistinctIds(devices) && device in devices
    ensures FindDevice(devices, device.public.deviceId) == Some(device)
  {
    if devices[0] == device {
    } else {
      assert device in devices[1..];
      var i :| 0 <= i < |devices[1..]| && devices[1..][i] == device;
      assert devices[i + 1] == device;
      DeviceIsUnique(devices[1..], device);
    }
  }

  /** The registry step of one successor: nothing changes, or a direct child
      policy follows that keeps every record. */
  ghost predicate PolicyStep(parent: PolicyState, child: PolicyState) {
    || child == parent
    || (&& child.body.generation == parent.body.generation + 1
        && RegistryKept(parent, child)
        && forall device <- child.body.devices :: RevocationStamped(device, parent, child.body.generation))
  }

  lemma SuccessorPolicyStep(e: Entry, parent: Entry)
    requires AuthenticSuccessor(e, parent)
    ensures PolicyStep(parent.policy, e.policy)
    ensures e.policy != parent.policy ==> ValidBody(e.policy.body)
    ensures e.policy.body.root == parent.policy.body.root
    ensures e.manifest.policyGeneration == e.policy.body.generation
  {
    hide RecordKept, RevocationStamped, OpenManifest, VerifyManifest, UnwrapPredecessorKey;
  }

  lemma GenesisPolicy(e: Entry, root: Root)
    requires AuthenticGenesis(e, root)
    ensures ValidBody(e.policy.body)
    ensures e.policy.body.generation == 0 && e.manifest.policyGeneration == 0
    ensures e.policy.body.root == root
    ensures forall device <- e.policy.body.devices :: device.Active()
  {
    hide OpenManifest, VerifyManifest, ValidBody;
  }

  lemma {:induction false} PoliciesValid(chain: seq<Entry>, root: Root)
    requires Authentic(chain, root)
    ensures forall i :: 0 <= i < |chain| ==> ValidBody(chain[i].policy.body)
    ensures forall i :: 0 <= i < |chain| ==> chain[i].policy.body.root == root
    ensures forall i :: 0 <= i < |chain| ==> chain[i].manifest.policyGeneration == chain[i].policy.body.generation
    ensures forall i :: 0 <= i < |chain| - 1 ==> PolicyStep(chain[i + 1].policy, chain[i].policy)
  {
    hide AuthenticGenesis, AuthenticSuccessor, ValidBody, PolicyStep;
    if |chain| == 1 {
      GenesisPolicy(chain[0], root);
    } else {
      PoliciesValid(chain[1..], root);
      SuccessorPolicyStep(chain[0], chain[1]);
      assert forall i :: 1 <= i < |chain| ==> chain[i] == chain[1..][i - 1];
    }
  }

  // ---------------------------------------------------------------------------
  // Whole histories

  /** The later record continues the earlier one. */
  predicate Continues(before: DeviceRecord, after: DeviceRecord) {
    && after.public == before.public
    && after.name == before.name
    && (before.revokedAt.Some? ==> after.revokedAt == before.revokedAt)
  }

  lemma StepContinues(parent: PolicyState, child: PolicyState, id: DeviceId)
    requires PolicyStep(parent, child)
    requires parent.Device(id).Some?
    ensures child.Device(id).Some? && Continues(parent.Device(id).value, child.Device(id).value)
    ensures parent.Device(id).value.Active() && !child.Device(id).value.Active() ==>
      child.Device(id).value.revokedAt == Some(child.body.generation)
      && child.body.generation == parent.body.generation + 1
  {
    assert parent.Device(id).value in parent.body.devices;
    if child != parent {
      assert RecordKept(parent.Device(id).value, child);
    }
  }

  /** Records never vanish and identities, labels and revocations never change. */
  lemma {:induction false} RegistryIsPermanent(chain: seq<Entry>, root: Root, newer: nat, older: nat, id: DeviceId)
    requires Authentic(chain, root)
    requires newer <= older < |chain|
    requires chain[older].policy.Device(id).Some?
    ensures chain[newer].policy.Device(id).Some?
    ensures Continues(chain[older].policy.Device(id).value, chain[newer].policy.Device(id).value)
    ensures chain[older].policy.body.generation <= chain[newer].policy.body.generation
    decreases older - newer
  {
    hide Authentic, ValidBody, PolicyStep, FindDevice;
    PoliciesValid(chain, root);
    if newer < older {
      RegistryIsPermanent(chain, root, newer + 1, older, id);
      assert PolicyStep(chain[newer + 1].policy, chain[newer].policy);
      StepContinues(chain[newer + 1].policy, chain[newer].policy, id);
      GenerationStep(chain[newer + 1].policy, chain[newer].policy);
    }
  }

  lemma GenerationStep(parent: PolicyState, child: PolicyState)
    requires PolicyStep(parent, child)
    ensures parent.body.generation <= child.body.generation <= parent.body.generation + 1
  {
  }

  lemma {:induction false} GenerationsGrow(chain: seq<Entry>, root: Root, newer: nat, older: nat)
    requires Authentic(chain, root)
    requires newer <= older < |chain|
    ensures chain[older].policy.body.generation <= chain[newer].policy.body.generation
    decreases older - newer
  {
    hide Authentic, ValidBody, PolicyStep;
    PoliciesValid(chain, root);
    if newer < older {
      GenerationsGrow(chain, root, newer + 1, older);
      GenerationStep(chain[newer + 1].policy, chain[newer].policy);
    }
  }

  /** A stamp never lies in the future of the policy that carries it. */
  lemma {:induction false} StampInPast(chain: seq<Entry>, root: Root, i: nat, id: DeviceId)
    requires Authentic(chain, root)
    requires i < |chain|
    requires chain[i].policy.Device(id).Some? && chain[i].policy.Device(id).value.revokedAt.Some?
    ensures 1 <= chain[i].policy.Device(id).value.revokedAt.value <= chain[i].policy.body.generation
    decreases |chain| - i
  {
    hide AuthenticSuccessor, AuthenticGenesis, ValidBody, FindDevice;
    PoliciesValid(chain, root);
    AuthenticSuffix(chain, root, i);
    var device := chain[i].policy.Device(id).value;
    assert device in chain[i].policy.body.devices;
    if i == |chain| - 1 {
      assert chain[i..][0] == chain[i] && |chain[i..]| == 1;
      GenesisPolicy(chain[i], root);
    } else {
      var parent := chain[i + 1].policy;
      assert PolicyStep(parent, chain[i].policy);
      if parent.Device(id).Some? && parent.Device(id).value.revokedAt.Some? {
        StampInPast(chain, root, i + 1, id);
        StepContinues(parent, chain[i].policy, id);
        GenerationStep(parent, chain[i].policy);
      } else {
        assert chain[i].policy != parent;
        assert RevocationStamped(device, parent, chain[i].policy.body.generation);
      }
    }
  }

  /** A revocation takes effect exactly at the policy generation it is stamped
      with: wherever the chain lists the device, it is revoked if and only if
      that policy is at or past the stamp. */
  lemma RevocationTakesEffectAtStamp(chain: seq<Entry>, root: Root, i: nat, j: nat, id: DeviceId)
    requires Authentic(chain, root)
    requires i < |chain| && j < |chain|
    requires chain[i].policy.Device(id).Some? && chain[i].policy.Device(id).value.revokedAt.Some?
    requires chain[j].policy.Device(id).Some?
    ensures
      var stamp := chain[i].policy.Device(id).value.revokedAt.value;
      chain[j].policy.Device(id).value.revokedAt ==
        if chain[j].policy.body.generation >= stamp then Some(stamp) else None
  {
    hide Authentic, ValidBody, FindDevice;
    if j <= i {
      RegistryIsPermanent(chain, root, j, i, id);
      StampInPast(chain, root, i, id);
    } else {
      RegistryIsPermanent(chain, root, i, j, id);
      if chain[j].policy.Device(id).value.revokedAt.Some? {
        StampInPast(chain, root, j, id);
      } else {
        ActiveBeforeStamp(chain, root, i, j, id);
      }
    }
  }

  lemma {:induction false} ActiveBeforeStamp(chain: seq<Entry>, root: Root, newer: nat, older: nat, id: DeviceId)
    requires Authentic(chain, root)
    requires newer <= older < |chain|
    requires chain[older].policy.Device(id).Some? && chain[older].policy.Device(id).value.Active()
    requires chain[newer].policy.Device(id).Some? && chain[newer].policy.Device(id).value.revokedAt.Some?
    ensures chain[older].policy.body.generation < chain[newer].policy.Device(id).value.revokedAt.value
    decreases older - newer
  {
    hide Authentic, ValidBody, FindDevice, PolicyStep;
    PoliciesValid(chain, root);
    assert newer < older;
    RegistryIsPermanent(chain, root, newer + 1, older, id);
    StepContinues(chain[newer + 1].policy, chain[newer].policy, id);
    if chain[newer + 1].policy.Device(id).value.revokedAt.Some? {
      ActiveBeforeStamp(chain, root, newer + 1, older, id);
    } else {
      GenerationsGrow(chain, root, newer + 1, older);
    }
  }

  lemma SignerIsActive(e: Entry, parent: Entry)
    requires AuthorizedSuccessor(e, parent)
    requires ValidBody(parent.policy.body)
    ensures parent.policy.Device(e.signer).Some? && parent.policy.Device(e.signer).value.Active()
  {
    hide Opens;
    var device :| device in parent.policy.body.devices && device.Active() && device.public.deviceId == e.signer;
    DeviceIsUnique(parent.policy.body.devices, device);
  }

  /** Once a policy of the chain revokes a device, that device signs no later
      entry. The revoking entry itself may be its last: an administrator may
      revoke itself. */
  lemma RevokedDeviceSignsNothingLater(chain: seq<Entry>, root: Root, i: nat, j: nat, id: DeviceId)
    requires Authentic(chain, root)
    requires j < i < |chain|
    requires chain[i].policy.Device(id).Some? && chain[i].policy.Device(id).value.revokedAt.Some?
    ensures chain[j].signer != id
  {
    hide Authentic, ValidBody, FindDevice, AuthorizedSuccessor, AuthorizedGenesis;
    ChainIsAuthorized(chain, root);
    PoliciesValid(chain, root);
    RegistryIsPermanent(chain, root, j + 1, i, id);
    SignerIsActive(chain[j], chain[j + 1]);
  }
}
