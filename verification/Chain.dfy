/** Opening and authenticating a manifest chain from storage: `chain_from` and
    `verify_opened_chain` of src/repository.rs. Chains run newest first, so
    `chain[0]` is the head and `chain[1..]` is the chain of its parent. */
module Chain {
  import opened Prelude
  import opened Policy
  import opened Manifests

  /** `OpenedState`: one authenticated generation. */
  datatype Entry = Entry(
    id: Id, manifest: Manifest, header: Header, policy: PolicyState, key: Key, signer: DeviceId)

  /** A manifest that opened but is not yet authenticated. */
  datatype Unverified = Unverified(id: Id, unsealed: Opened, key: Key)

  /** What storage answers for each content ID. No walk reads an ID twice, so a
      function of the ID also covers storage that changes between reads, and
      an exhausted recovery budget is an answer `Err({BudgetExhausted})`. */
  type Reader = Id -> Result<Blob>

  /** `proven_invalid` */
  function ProvenInvalid<T>(r: Result<T>): Result<T> {
    if r.Err? && Unsupported !in r.causes then Err(r.causes + {InvalidState}) else r
  }

  /** `read_manifest_material` */
  function ReadMaterial(read: Reader, id: Id): (r: Result<Blob>)
    ensures r.Ok? ==> id == ObjectId(r.value) && PeekHeader(r.value).Ok?
  {
    var blob :- read(id);
    if ObjectId(blob) != id then
      ProvenInvalid(Err({Rejected}))
    else
      var _ :- ProvenInvalid(PeekHeader(blob));
      Ok(blob)
  }

  // ---------------------------------------------------------------------------
  // Specification of the two passes

  /** Opens from `at` back to generation zero. The parent's generation is one
      less, whatever storage answers, so the walk ends. */
  function Walk(read: Reader, at: Unverified): Result<seq<Unverified>>
    requires at.unsealed.manifest.generation == 0 <==> at.unsealed.manifest.previous.None?
    decreases at.unsealed.manifest.generation
  {
    if at.unsealed.manifest.previous.None? then Ok([at])
    else
      var parent :- OpenParent(read, at);
      var rest :- Walk(read, parent);
      Ok([at] + rest)
  }

  /** Reads the parent and opens it with the key the child's link unwraps. */
  function OpenParent(read: Reader, at: Unverified): (r: Result<Unverified>)
    requires at.unsealed.manifest.previous.Some?
    ensures r.Ok? ==>
      && Some(r.value.id) == at.unsealed.manifest.previous
      && r.value.id.ObjectId?
      && OpenManifest(r.value.id.blob, r.value.key) == Ok(r.value.unsealed)
      && r.value.unsealed.manifest.generation + 1 == at.unsealed.manifest.generation
  {
    var previousId := at.unsealed.manifest.previous.value;
    var blob :- ReadMaterial(read, previousId);
    var key :- ProvenInvalid(UnwrapPredecessorKey(at.key, at.unsealed.manifest, PeekHeader(blob).value));
    var unsealed :- ProvenInvalid(OpenManifest(blob, key));
    Ok(Unverified(previousId, unsealed, key))
  }

  /** The policy an entry selects and the parent policy that must authorize it. */
  function SelectPolicy(m: Manifest, parent: Option<Entry>, root: Root): Result<(PolicyState, Option<PolicyState>)> {
    if parent.None? then
      var _ :- Need(m.introducedPolicy.Some?);
      var policy :- Parse(m.introducedPolicy.value);
      var _ :- ValidateGenesis(policy, root);
      var _ :- ValidateManifestGenesis(m, policy);
      Ok((policy, None))
    else
      var selected :- SelectSuccessorPolicy(m, parent.value);
      var _ :- ValidateManifestSuccessor(m, parent.value.id, parent.value.manifest, selected.0);
      Ok(selected)
  }

  function SelectSuccessorPolicy(m: Manifest, parent: Entry): Result<(PolicyState, Option<PolicyState>)> {
    match m.authorization
    case Writer =>
      var _ :- Need(m.introducedPolicy.None?);
      Ok((parent.policy, None))
    case PolicyTransition =>
      var _ :- Need(m.introducedPolicy.Some?);
      var policy :- Parse(m.introducedPolicy.value);
      var _ :- ValidateSuccessor(policy, parent.policy);
      Ok((policy, Some(parent.policy)))
    case _ =>
      Err({Unsupported})
  }

  function VerifyEntry(u: Unverified, parent: Option<Entry>, root: Root): (r: Result<Entry>)
    ensures r.Ok? ==>
      && r.value.id == u.id
      && r.value.manifest == u.unsealed.manifest
      && r.value.header == u.unsealed.header
      && r.value.key == u.key
      && r.value.signer == u.unsealed.claimedSigner
  {
    var selected :- SelectPolicy(u.unsealed.manifest, parent, root);
    var _ :- VerifyManifest(u.unsealed, selected.0, selected.1, u.key);
    Ok(Entry(u.id, u.unsealed.manifest, u.unsealed.header, selected.0, u.key, u.unsealed.claimedSigner))
  }

  function PackIds(packs: seq<PackDescriptor>): set<nat> {
    set pack | pack in packs :: pack.id
  }

  function ChainPackIds(chain: seq<Entry>): set<nat> {
    if chain == [] then {} else PackIds(chain[0].manifest.newPacks) + ChainPackIds(chain[1..])
  }

  /** Authenticates oldest first. */
  function VerifyChain(unverified: seq<Unverified>, root: Root): (r: Result<seq<Entry>>)
    ensures r.Ok? ==> |r.value| == |unverified|
  {
    if unverified == [] then Ok([])
    else
      var older :- VerifyChain(unverified[1..], root);
      VerifyOnto(unverified[0], older, root)
  }

  function VerifyOnto(u: Unverified, older: seq<Entry>, root: Root): (r: Result<seq<Entry>>)
    ensures r.Ok? ==> |r.value| == |older| + 1
  {
    var _ :- Need(PackIds(u.unsealed.manifest.newPacks) !! ChainPackIds(older));
    var entry :- VerifyEntry(u, if older == [] then None else Some(older[0]), root);
    Ok([entry] + older)
  }

  function OpenHead(read: Reader, head: Id, key: KeyFile): (r: Result<Unverified>)
    ensures r.Ok? ==>
      && r.value.id == head
      && head.ObjectId?
      && OpenManifest(head.blob, r.value.key) == Ok(r.value.unsealed)
      && UnwrapGenerationKey(r.value.unsealed.header, key) == Ok(r.value.key)
  {
    var blob :- ReadMaterial(read, head);
    var generationKey :- UnwrapGenerationKey(PeekHeader(blob).value, key);
    var unsealed :- ProvenInvalid(OpenManifest(blob, generationKey));
    Ok(Unverified(head, unsealed, generationKey))
  }

  function OpenChain(read: Reader, head: Id, key: KeyFile): Result<seq<Entry>> {
    var at :- OpenHead(read, head, key);
    var unverified :- Walk(read, at);
    ProvenInvalid(VerifyChain(unverified, key.root))
  }

  // ---------------------------------------------------------------------------
  // The loops

  function Reversed<T>(s: seq<T>): (r: seq<T>)
    ensures |r| == |s|
  {
    if s == [] then [] else [s[|s| - 1]] + Reversed(s[..|s| - 1])
  }

  lemma ReversedPush<T>(s: seq<T>, x: T)
    ensures Reversed(s + [x]) == [x] + Reversed(s)
  {
    assert (s + [x])[..|s|] == s;
  }

  lemma {:induction false} VerifyChainFrom(unverified: seq<Unverified>, position: nat, older: seq<Entry>, root: Root)
    requires position < |unverified|
    requires VerifyChain(unverified[position + 1..], root) == Ok(older)
    ensures VerifyChain(unverified[position..], root) == VerifyOnto(unverified[position], older, root)
    ensures VerifyOnto(unverified[position], older, root).Err? ==>
      VerifyChain(unverified, root) == VerifyOnto(unverified[position], older, root)
  {
    assert unverified[position..][1..] == unverified[position + 1..];
    if position > 0 {
      assert unverified[1..][position..] == unverified[position + 1..];
      assert unverified[1..][position - 1..] == unverified[position..];
      VerifyChainFrom(unverified[1..], position - 1, older, root);
    } else {
      assert unverified[0..] == unverified;
    }
  }

  /** `verify_opened_chain`: pushes verified entries oldest first, keeping one
      set of all pack IDs seen so far, and reverses at the end. */
  method VerifyOpenedChain(unverified: seq<Unverified>, root: Root) returns (r: Result<seq<Entry>>)
    ensures r == VerifyChain(unverified, root)
  {
    hide VerifyEntry;
    var chainOldestFirst: seq<Entry> := [];
    var seenPackIds: set<nat> := {};
    var remaining := |unverified|;
    while remaining > 0
      invariant 0 <= remaining <= |unverified|
      invariant VerifyChain(unverified[remaining..], root) == Ok(Reversed(chainOldestFirst))
      invariant seenPackIds == ChainPackIds(Reversed(chainOldestFirst))
    {
      ghost var older := Reversed(chainOldestFirst);
      remaining := remaining - 1;
      VerifyChainFrom(unverified, remaining, older, root);
      var current := unverified[remaining];
      var packIds := PackIds(current.unsealed.manifest.newPacks);
      if !(packIds !! seenPackIds) {
        return Err({Rejected});
      }
      var parent := if chainOldestFirst == [] then None else Some(chainOldestFirst[|chainOldestFirst| - 1]);
      var entry := VerifyEntry(current, parent, root);
      if entry.Err? {
        return Err(entry.causes);
      }
      ReversedPush(chainOldestFirst, entry.value);
      chainOldestFirst := chainOldestFirst + [entry.value];
      seenPackIds := seenPackIds + packIds;
    }
    assert unverified[0..] == unverified;
    return Ok(Reversed(chainOldestFirst));
  }

  /** One turn of the loop in `chain_from`; its "header changed while opening"
      exit is dead. */
  method ReadParent(read: Reader, at: Unverified) returns (r: Result<Unverified>)
    requires at.unsealed.manifest.previous.Some?
    ensures r == OpenParent(read, at)
  {
    hide OpenManifest, UnwrapPredecessorKey, ReadMaterial;
    var previousId := at.unsealed.manifest.previous.value;
    var material := ReadMaterial(read, previousId);
    if material.Err? {
      return Err(material.causes);
    }
    var parentHeader := PeekHeader(material.value).value;
    var parentKey := ProvenInvalid(UnwrapPredecessorKey(at.key, at.unsealed.manifest, parentHeader));
    if parentKey.Err? {
      return Err(parentKey.causes);
    }
    var parent := ProvenInvalid(OpenManifest(material.value, parentKey.value));
    if parent.Err? {
      return Err(parent.causes);
    }
    if parent.value.header != parentHeader {
      assert false;
    }
    return Ok(Unverified(previousId, parent.value, parentKey.value));
  }

  /** What the walk knows about the manifest it stands at. */
  predicate WellOpened(at: Unverified) {
    && at.id.ObjectId?
    && OpenManifest(at.id.blob, at.key) == Ok(at.unsealed)
  }

  predicate AboveGeneration(id: Id, generation: u64) {
    id.ObjectId? && PeekHeader(id.blob).Ok? && PeekHeader(id.blob).value.generation > generation
  }

  /** `chain_from`: the walk keeps the manifest it stands at and the set of IDs
      seen. Its cycle exit and its "above generation zero" exit are dead on
      every storage, and it ends because the generation falls. */
  method ChainFrom(read: Reader, head: Id, keyFile: KeyFile) returns (r: Result<seq<Entry>>)
    ensures r == OpenChain(read, head, keyFile)
  {
    hide OpenManifest, PeekHeader, VerifyChain, OpenHead, OpenParent;
    var start := OpenHead(read, head, keyFile);
    if start.Err? {
      return Err(start.causes);
    }
    var at := start.value;
    var unverified: seq<Unverified> := [];
    var seen: set<Id> := {};
    ghost var walked := Walk(read, at);
    assert walked.Ok? ==> [] + walked.value == walked.value;
    while true
      invariant WellOpened(at)
      invariant forall x <- seen :: AboveGeneration(x, at.unsealed.manifest.generation)
      invariant var rest := Walk(read, at);
        walked == if rest.Ok? then Ok(unverified + rest.value) else rest
      decreases at.unsealed.manifest.generation
    {
      if at.id in seen {
        assert false;
      }
      seen := seen + {at.id};
      if at.unsealed.manifest.previous.None? {
        if at.unsealed.manifest.generation != 0 {
          assert false;
        }
        unverified := unverified + [at];
        break;
      }
      var parent := ReadParent(read, at);
      if parent.Err? {
        return Err(parent.causes);
      }
      ghost var rest := Walk(read, parent.value);
      assert rest.Ok? ==> unverified + ([at] + rest.value) == unverified + [at] + rest.value;
      unverified := unverified + [at];
      at := parent.value;
    }
    var verified := VerifyOpenedChain(unverified, keyFile.root);
    return ProvenInvalid(verified);
  }
}
