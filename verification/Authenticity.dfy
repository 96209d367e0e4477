/** What an accepted chain is, independently of the passes that accept it, and
    what every accepted chain guarantees. */
module Authenticity {
  import opened Prelude
  import opened Policy
  import opened Manifests
  import opened Chain

  // ---------------------------------------------------------------------------
  // The reference definition

  /** The entry is what its content ID and generation key open to. */
  predicate Opens(e: Entry) {
    && e.id.ObjectId?
    && var unsealed := OpenManifest(e.id.blob, e.key);
    && unsealed.Ok?
    && unsealed.value.manifest == e.manifest
    && unsealed.value.header == e.header
    && unsealed.value.claimedSigner == e.signer
  }

  function Unsealed(e: Entry): Opened
    requires Opens(e)
  {
    OpenManifest(e.id.blob, e.key).value
  }

  predicate AuthenticGenesis(e: Entry, root: Root) {
    && Opens(e)
    && e.manifest.introducedPolicy.Some?
    && Parse(e.manifest.introducedPolicy.value) == Ok(e.policy)
    && ValidateGenesis(e.policy, root).Ok?
    && ValidateManifestGenesis(e.manifest, e.policy).Ok?
    && VerifyManifest(Unsealed(e), e.policy, None, e.key).Ok?
  }

  predicate AuthenticSuccessor(e: Entry, parent: Entry) {
    && Opens(e)
    && var selected := SelectSuccessorPolicy(e.manifest, parent);
    && selected.Ok?
    && selected.value.0 == e.policy
    && ValidateManifestSuccessor(e.manifest, parent.id, parent.manifest, e.policy).Ok?
    && VerifyManifest(Unsealed(e), e.policy, selected.value.1, e.key).Ok?
    && UnwrapPredecessorKey(e.key, e.manifest, parent.header) == Ok(parent.key)
  }

  ghost predicate Authentic(chain: seq<Entry>, root: Root)
    ensures Authentic(chain, root) ==> |chain| > 0
  {
    && |chain| > 0
    && if |chain| == 1 then
         AuthenticGenesis(chain[0], root)
       else
         && Authentic(chain[1..], root)
         && AuthenticSuccessor(chain[0], chain[1])
         && PackIds(chain[0].manifest.newPacks) !! ChainPackIds(chain[1..])
  }

  ghost predicate Served(read: Reader, chain: seq<Entry>) {
    forall e <- chain :: e.id.ObjectId? && read(e.id) == Ok(e.id.blob)
  }

  // ---------------------------------------------------------------------------
  // `chain_from` accepts exactly the authentic chains storage serves

  /** What the first pass hands to the second. */
  ghost predicate Linked(us: seq<Unverified>) {
    && |us| > 0
    && WellOpened(us[0])
    && if us[0].unsealed.manifest.previous.None? then |us| == 1
       else
         && |us| > 1
         && us[0].unsealed.manifest.previous == Some(us[1].id)
         && UnwrapPredecessorKey(us[0].key, us[0].unsealed.manifest, us[1].unsealed.header) == Ok(us[1].key)
         && Linked(us[1..])
  }

  lemma {:induction false} WalkLinks(read: Reader, at: Unverified)
    requires WellOpened(at)
    requires read(at.id) == Ok(at.id.blob)
    ensures Walk(read, at).Ok? ==>
      var us := Walk(read, at).value;
      Linked(us) && us[0] == at && forall u <- us :: u.id.ObjectId? && read(u.id) == Ok(u.id.blob)
    decreases at.unsealed.manifest.generation
  {
    if Walk(read, at).Ok? && at.unsealed.manifest.previous.Some? {
      var next := OpenParent(read, at).value;
      WalkLinks(read, next);
      var us := Walk(read, at).value;
      assert us[1..] == Walk(read, next).value;
    }
  }

  lemma {:induction false} VerifiedIsAuthentic(us: seq<Unverified>, root: Root)
    requires Linked(us)
    requires VerifyChain(us, root).Ok?
    ensures var chain := VerifyChain(us, root).value;
      && Authentic(chain, root)
      && |chain| == |us|
      && forall i :: 0 <= i < |us| ==>
           chain[i].id == us[i].id && chain[i].key == us[i].key && chain[i].header == us[i].unsealed.header
  {
    hide AuthenticGenesis, AuthenticSuccessor, WellOpened, UnwrapPredecessorKey, OpenManifest, VerifyEntry;
    var chain := VerifyChain(us, root).value;
    assert chain[1..] == VerifyChain(us[1..], root).value;
    if |us| == 1 {
      VerifiedGenesis(us[0], chain[0], root);
    } else {
      VerifiedIsAuthentic(us[1..], root);
      assert us[1..][0] == us[1] && chain[1..][0] == chain[1];
      VerifiedSuccessor(us[0], chain[0], us[1], chain[1], root);
      forall i | 0 <= i < |us|
        ensures chain[i].id == us[i].id && chain[i].key == us[i].key && chain[i].header == us[i].unsealed.header
      {
        if i > 0 {
          assert chain[i] == chain[1..][i - 1] && us[i] == us[1..][i - 1];
        }
      }
    }
  }

  lemma VerifiedGenesis(u: Unverified, e: Entry, root: Root)
    requires WellOpened(u)
    requires VerifyEntry(u, None, root) == Ok(e)
    ensures AuthenticGenesis(e, root)
  {
  }

  lemma VerifiedSuccessor(u: Unverified, e: Entry, parentU: Unverified, parent: Entry, root: Root)
    requires WellOpened(u)
    requires VerifyEntry(u, Some(parent), root) == Ok(e)
    requires parent.key == parentU.key && parent.header == parentU.unsealed.header
    requires UnwrapPredecessorKey(u.key, u.unsealed.manifest, parentU.unsealed.header) == Ok(parentU.key)
    ensures AuthenticSuccessor(e, parent)
  {
  }

  lemma AcceptedIsAuthentic(read: Reader, head: Id, key: KeyFile)
    requires OpenChain(read, head, key).Ok?
    ensures var chain := OpenChain(read, head, key).value;
      && Authentic(chain, key.root)
      && chain[0].id == head
      && UnwrapGenerationKey(chain[0].header, key) == Ok(chain[0].key)
      && Served(read, chain)
  {
    hide Walk, VerifyChain, OpenManifest, UnwrapGenerationKey;
    var at := OpenHead(read, head, key).value;
    WalkLinks(read, at);
    var us := Walk(read, at).value;
    VerifiedIsAuthentic(us, key.root);
    var chain := VerifyChain(us, key.root).value;
    forall e | e in chain
      ensures e.id.ObjectId? && read(e.id) == Ok(e.id.blob)
    {
      var i :| 0 <= i < |chain| && chain[i] == e;
      assert us[i] in us;
    }
  }

  /** The unverified form of an authentic chain. */
  ghost function Unverify(chain: seq<Entry>): (us: seq<Unverified>)
    requires forall e <- chain :: Opens(e)
    ensures |us| == |chain|
  {
    seq(|chain|, i requires 0 <= i < |chain| => Unverified(chain[i].id, Unsealed(chain[i]), chain[i].key))
  }

  lemma {:induction false} AuthenticOpens(chain: seq<Entry>, root: Root)
    requires Authentic(chain, root)
    ensures forall e <- chain :: Opens(e)
  {
    hide Opens, SelectSuccessorPolicy, ValidateManifestSuccessor, ValidateManifestGenesis, VerifyManifest,
      UnwrapPredecessorKey, Parse, ValidateGenesis;
    if |chain| > 1 {
      AuthenticOpens(chain[1..], root);
      assert forall e <- chain :: e == chain[0] || e in chain[1..];
    }
  }

  lemma {:induction false} AuthenticWalks(read: Reader, chain: seq<Entry>, root: Root)
    requires Authentic(chain, root)
    requires Served(read, chain)
    requires forall e <- chain :: Opens(e)
    ensures Walk(read, Unverified(chain[0].id, Unsealed(chain[0]), chain[0].key)) == Ok(Unverify(chain))
  {
    hide AuthenticSuccessor, AuthenticGenesis, Walk, OpenManifest, Opens, Unsealed;
    if |chain| == 1 {
      assert Unverify(chain) == [Unverify(chain)[0]];
      GenesisWalks(read, chain[0], root);
    } else {
      assert forall e <- chain[1..] :: e in chain;
      AuthenticWalks(read, chain[1..], root);
      assert chain[1] in chain;
      WalkStep(read, chain[0], chain[1]);
      assert Unverify(chain) == [Unverify(chain)[0]] + Unverify(chain[1..]);
    }
  }

  lemma GenesisWalks(read: Reader, e: Entry, root: Root)
    requires AuthenticGenesis(e, root)
    ensures
      var at := Unverified(e.id, Unsealed(e), e.key);
      Walk(read, at) == Ok([at])
  {
    assert e.manifest.previous.None?;
  }

  lemma WalkStep(read: Reader, e: Entry, parent: Entry)
    requires AuthenticSuccessor(e, parent) && Opens(parent)
    requires read(parent.id) == Ok(parent.id.blob)
    ensures
      var at := Unverified(e.id, Unsealed(e), e.key);
      var rest := Walk(read, Unverified(parent.id, Unsealed(parent), parent.key));
      Walk(read, at) == if rest.Ok? then Ok([at] + rest.value) else rest
  {
    assert e.manifest.previous == Some(parent.id);
    assert ReadMaterial(read, parent.id) == Ok(parent.id.blob);
  }

  lemma {:induction false} AuthenticVerifies(chain: seq<Entry>, root: Root)
    requires Authentic(chain, root)
    requires forall e <- chain :: Opens(e)
    ensures VerifyChain(Unverify(chain), root) == Ok(chain)
  {
    hide AuthenticSuccessor, AuthenticGenesis, VerifyEntry, OpenManifest;
    var us := Unverify(chain);
    assert [chain[0]] + chain[1..] == chain;
    if |chain| == 1 {
      assert us[1..] == [];
      GenesisVerifies(chain[0], root);
    } else {
      assert forall e <- chain[1..] :: e in chain;
      AuthenticVerifies(chain[1..], root);
      assert us[1..] == Unverify(chain[1..]);
      SuccessorVerifies(chain[0], chain[1], root);
    }
  }

  lemma GenesisVerifies(e: Entry, root: Root)
    requires AuthenticGenesis(e, root)
    ensures VerifyEntry(Unverified(e.id, Unsealed(e), e.key), None, root) == Ok(e)
  {
  }

  lemma SuccessorVerifies(e: Entry, parent: Entry, root: Root)
    requires AuthenticSuccessor(e, parent)
    ensures VerifyEntry(Unverified(e.id, Unsealed(e), e.key), Some(parent), root) == Ok(e)
  {
  }

  /** Storage that serves an authentic chain is accepted by every device that
      can unwrap the head's key, and the whole chain comes back. */
  lemma AuthenticIsAccepted(read: Reader, chain: seq<Entry>, key: KeyFile)
    requires Authentic(chain, key.root)
    requires Served(read, chain)
    requires UnwrapGenerationKey(chain[0].header, key) == Ok(chain[0].key)
    ensures OpenChain(read, chain[0].id, key) == Ok(chain)
  {
    hide Walk, VerifyChain, OpenManifest, UnwrapGenerationKey;
    AuthenticOpens(chain, key.root);
    AuthenticWalks(read, chain, key.root);
    AuthenticVerifies(chain, key.root);
    assert chain[0] in chain;
  }

  // ---------------------------------------------------------------------------
  // Shape

  lemma {:induction false} AuthenticSuffix(chain: seq<Entry>, root: Root, k: nat)
    requires Authentic(chain, root)
    requires k < |chain|
    ensures Authentic(chain[k..], root)
  {
    hide AuthenticSuccessor, AuthenticGenesis;
    if k == 0 {
      assert chain[0..] == chain;
    } else {
      AuthenticSuffix(chain[1..], root, k - 1);
      assert chain[1..][k - 1..] == chain[k..];
    }
  }

  lemma GenesisShape(e: Entry, root: Root)
    requires AuthenticGenesis(e, root)
    ensures e.manifest.generation == 0 && e.manifest.previous.None? && e.manifest.root == root
  {
  }

  lemma SuccessorShape(e: Entry, parent: Entry)
    requires AuthenticSuccessor(e, parent)
    ensures e.manifest.generation == parent.manifest.generation + 1
    ensures e.manifest.previous == Some(parent.id)
    ensures e.manifest.root == parent.manifest.root
  {
  }

  /** An accepted chain is exactly the generations from its head down to zero,
      each naming the content ID of the next older one. */
  lemma {:induction false} ChainShape(chain: seq<Entry>, root: Root)
    requires Authentic(chain, root)
    ensures |chain| == chain[0].manifest.generation + 1
    ensures forall i :: 0 <= i < |chain| ==> chain[i].manifest.generation == |chain| - 1 - i
    ensures forall i :: 0 <= i < |chain| - 1 ==> chain[i].manifest.previous == Some(chain[i + 1].id)
    ensures forall i :: 0 <= i < |chain| ==> chain[i].manifest.root == root
  {
    hide AuthenticSuccessor, AuthenticGenesis;
    if |chain| == 1 {
      GenesisShape(chain[0], root);
    } else {
      SuccessorShape(chain[0], chain[1]);
      ChainShape(chain[1..], root);
      assert forall i :: 1 <= i < |chain| ==> chain[i] == chain[1..][i - 1];
    }
  }

  lemma GenerationFromId(e: Entry, f: Entry)
    requires Opens(e) && Opens(f) && e.id == f.id
    ensures e.manifest == f.manifest && e.key == f.key && e.header == f.header && e.signer == f.signer
  {
    assert CommitTo(e.key) == CommitTo(f.key);
  }

  /** A walk never reads one content ID twice. */
  lemma IdsNeverRepeat(chain: seq<Entry>, root: Root, i: nat, j: nat)
    requires Authentic(chain, root)
    requires i < j < |chain|
    ensures chain[i].id != chain[j].id
  {
    hide AuthenticSuccessor, AuthenticGenesis, Opens;
    ChainShape(chain, root);
    AuthenticOpens(chain, root);
    assert chain[i] in chain && chain[j] in chain;
    if chain[i].id == chain[j].id {
      GenerationFromId(chain[i], chain[j]);
    }
  }

  lemma SamePolicy(e: Entry, f: Entry, parent: Option<Entry>, root: Root)
    requires e.id == f.id
    requires if parent.Some? then AuthenticSuccessor(e, parent.value) && AuthenticSuccessor(f, parent.value)
             else AuthenticGenesis(e, root) && AuthenticGenesis(f, root)
    ensures e == f
  {
    GenerationFromId(e, f);
  }

  /** A content ID fixes the whole history behind it, whoever opened it. */
  lemma {:induction false} SameHeadSameChain(a: seq<Entry>, b: seq<Entry>, root: Root)
    requires Authentic(a, root) && Authentic(b, root)
    requires a[0].id == b[0].id
    ensures a == b
  {
    hide AuthenticSuccessor, AuthenticGenesis, Opens;
    ChainShape(a, root);
    ChainShape(b, root);
    AuthenticOpens(a, root);
    AuthenticOpens(b, root);
    assert a[0] in a && b[0] in b;
    GenerationFromId(a[0], b[0]);
    if |a| > 1 {
      assert a[1..][0].id == b[1..][0].id;
      SameHeadSameChain(a[1..], b[1..], root);
      assert a[1] == a[1..][0] == b[1..][0] == b[1];
      SamePolicy(a[0], b[0], Some(a[1]), root);
    } else {
      SamePolicy(a[0], b[0], None, root);
    }
    assert a == [a[0]] + a[1..] && b == [b[0]] + b[1..];
  }

  lemma SameIdSameHistory(a: seq<Entry>, b: seq<Entry>, root: Root, i: nat, j: nat)
    requires Authentic(a, root) && Authentic(b, root)
    requires i < |a| && j < |b| && a[i].id == b[j].id
    ensures a[i..] == b[j..]
  {
    AuthenticSuffix(a, root, i);
    AuthenticSuffix(b, root, j);
    SameHeadSameChain(a[i..], b[j..], root);
  }

  /** `newer` passes through the head of `older`. */
  predicate Extends(newer: seq<Entry>, older: seq<Entry>) {
    |older| <= |newer| && newer[|newer| - |older|..] == older
  }

  // ---------------------------------------------------------------------------
  // Conservation of packs

  function TotalPacks(chain: seq<Entry>): nat {
    if chain == [] then 0 else |chain[0].manifest.newPacks| + TotalPacks(chain[1..])
  }

  lemma {:induction false} PackCountConserved(chain: seq<Entry>, root: Root)
    requires Authentic(chain, root)
    ensures chain[0].manifest.totalPackCount == TotalPacks(chain)
  {
    hide Opens, VerifyManifest, UnwrapPredecessorKey, SelectSuccessorPolicy, Parse, ValidateGenesis;
    if |chain| == 1 {
      assert chain[1..] == [];
    } else {
      PackCountConserved(chain[1..], root);
      assert chain[1..][0] == chain[1];
    }
  }

  lemma {:induction false} ChainPackIdsContain(chain: seq<Entry>, i: nat, k: nat)
    requires i < |chain| && k < |chain[i].manifest.newPacks|
    ensures chain[i].manifest.newPacks[k].id in ChainPackIds(chain)
  {
    if i == 0 {
      assert chain[0].manifest.newPacks[k] in chain[0].manifest.newPacks;
    } else {
      ChainPackIdsContain(chain[1..], i - 1, k);
    }
  }

  lemma DeltaIdsDistinct(e: Entry, k: nat, l: nat)
    requires Opens(e)
    requires k < |e.manifest.newPacks| && l < |e.manifest.newPacks| && k != l
    ensures e.manifest.newPacks[k].id != e.manifest.newPacks[l].id
  {
    assert ValidPackDelta(e.manifest);
  }

  /** No pack ID repeats anywhere in an accepted chain. */
  lemma {:induction false} PackIdsNeverRepeat(chain: seq<Entry>, root: Root, i: nat, k: nat, j: nat, l: nat)
    requires Authentic(chain, root)
    requires i <= j < |chain| && k < |chain[i].manifest.newPacks| && l < |chain[j].manifest.newPacks|
    requires i != j || k != l
    ensures chain[i].manifest.newPacks[k].id != chain[j].manifest.newPacks[l].id
  {
    hide AuthenticSuccessor, AuthenticGenesis, Opens, ValidPackDelta;
    if i == 0 && j == 0 {
      AuthenticOpens(chain, root);
      assert chain[0] in chain;
      DeltaIdsDistinct(chain[0], k, l);
    } else if i == 0 {
      ChainPackIdsContain(chain[1..], j - 1, l);
      assert chain[0].manifest.newPacks[k] in chain[0].manifest.newPacks;
    } else {
      PackIdsNeverRepeat(chain[1..], root, i - 1, k, j - 1, l);
    }
  }

  predicate PacksOpen(e: Entry, opens: (Entry, PackDescriptor) -> bool) {
    forall pack <- e.manifest.newPacks :: opens(e, pack)
  }

  /** Opens every pack oldest first and counts them. */
  method OpenAllPacks(chain: seq<Entry>, opens: (Entry, PackDescriptor) -> bool) returns (r: Result<nat>)
    ensures r == if forall e <- chain :: PacksOpen(e, opens) then Ok(TotalPacks(chain)) else Err({Rejected})
  {
    var count := 0;
    var i := |chain|;
    while i > 0
      invariant 0 <= i <= |chain|
      invariant count == TotalPacks(chain[i..])
      invariant forall j :: i <= j < |chain| ==> PacksOpen(chain[j], opens)
    {
      i := i - 1;
      assert chain[i..][0] == chain[i] && chain[i..][1..] == chain[i + 1..];
      var packs := chain[i].manifest.newPacks;
      for k := 0 to |packs|
        invariant count == TotalPacks(chain[i + 1..]) + k
        invariant forall pack <- packs[..k] :: opens(chain[i], pack)
      {
        if !opens(chain[i], packs[k]) {
          assert chain[i] in chain && packs[k] in packs;
          return Err({Rejected});
        }
        count := count + 1;
      }
      assert packs[..|packs|] == packs;
    }
    assert chain[0..] == chain;
    return Ok(count);
  }

  /** `verify_ciphertext`: on an accepted chain its "pack count mismatch" exit is dead. */
  method VerifyCiphertext(chain: seq<Entry>, opens: (Entry, PackDescriptor) -> bool, ghost root: Root)
    returns (r: Result<Manifest>)
    requires Authentic(chain, root)
    ensures r == if forall e <- chain :: PacksOpen(e, opens) then Ok(chain[0].manifest) else Err({Rejected})
  {
    var count := OpenAllPacks(chain, opens);
    if count.Err? {
      return Err(count.causes);
    }
    PackCountConserved(chain, root);
    if count.value != chain[0].manifest.totalPackCount {
      assert false;
    }
    return Ok(chain[0].manifest);
  }
}

