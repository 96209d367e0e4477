/** One checkout's import progress (`CheckoutProgress` of src/repository.rs) and
    the incremental packs it relies on: `publish_refs`, `observe_manifest`,
    `import_packs` and `import_chain_packs`. */
module Checkout {
  import opened Prelude
  import opened Policy
  import opened Manifests
  import opened Chain
  import opened Authenticity
  import opened GitGraph
  import opened Push

  // ---------------------------------------------------------------------------
  // Packs

  /** The objects that each pack ID decrypts to. */
  type Packs = nat -> set<Oid>

  function DeltaObjects(packs: Packs, deltas: seq<PackDescriptor>): (r: set<Oid>)
    ensures forall d <- deltas :: packs(d.id) <= r
  {
    if deltas == [] then {} else packs(deltas[0].id) + DeltaObjects(packs, deltas[1..])
  }

  /** The objects of all packs of some entries. */
  function ChainObjects(packs: Packs, chain: seq<Entry>): set<Oid> {
    if chain == [] then {} else DeltaObjects(packs, chain[0].manifest.newPacks) + ChainObjects(packs, chain[1..])
  }

  /** `start_incremental_pack`: everything reachable from the changed refs that
      the excluded tips do not reach. */
  ghost predicate Carries(g: Universe, objects: set<Oid>, packRefs: Refs, exclusions: set<Oid>) {
    forall o :: Reachable(g, packRefs.Values, o) && !Reachable(g, exclusions, o) ==> o in objects
  }

  /** `publish_refs` excludes those tips of the parent that exist locally. */
  ghost predicate PackedOn(g: Universe, packs: Packs, e: Entry, parent: Entry) {
    exists exclusions ::
      && exclusions <= parent.manifest.refs.Values
      && Carries(g, DeltaObjects(packs, e.manifest.newPacks), PackRefs(parent.manifest.refs, e.manifest.refs), exclusions)
  }

  /** A chain whose every push packed what it added. Policy transitions and
      recoveries keep the refs, so they add nothing to pack. */
  ghost predicate PackedChain(g: Universe, packs: Packs, chain: seq<Entry>) {
    && chain != []
    && chain[|chain| - 1].manifest.refs == map[]
    && forall i :: 0 <= i < |chain| - 1 ==> PackedOn(g, packs, chain[i], chain[i + 1])
  }

  /** Refs that did not change need no pack. */
  lemma UnchangedRefsArePacked(g: Universe, packs: Packs, e: Entry, parent: Entry)
    requires e.manifest.refs == parent.manifest.refs
    ensures PackedOn(g, packs, e, parent)
  {
    var packRefs := PackRefs(parent.manifest.refs, e.manifest.refs);
    assert packRefs == map[];
    assert packRefs.Values == {};
    assert Carries(g, DeltaObjects(packs, e.manifest.newPacks), packRefs, {});
  }

  /** A push, a policy transition or a recovery on a packed chain leaves it packed. */
  lemma PackedChainGrows(g: Universe, packs: Packs, e: Entry, chain: seq<Entry>)
    requires PackedChain(g, packs, chain)
    requires e.manifest.refs == chain[0].manifest.refs || PackedOn(g, packs, e, chain[0])
    ensures PackedChain(g, packs, [e] + chain)
  {
    hide PackedOn;
    if e.manifest.refs == chain[0].manifest.refs {
      UnchangedRefsArePacked(g, packs, e, chain[0]);
    }
    var grown := [e] + chain;
    forall i | 0 <= i < |grown| - 1
      ensures PackedOn(g, packs, grown[i], grown[i + 1])
    {
      if i > 0 {
        assert PackedOn(g, packs, chain[i - 1], chain[i - 1 + 1]);
      }
    }
  }

  lemma OneDelta(g: Universe, packs: Packs, store: set<Oid>, e: Entry, parent: Entry)
    requires PackedOn(g, packs, e, parent)
    requires Complete(g, store, parent.manifest.refs.Values)
    ensures Complete(g, store + DeltaObjects(packs, e.manifest.newPacks), e.manifest.refs.Values)
  {
    hide Reaches, DeltaObjects;
    var packRefs := PackRefs(parent.manifest.refs, e.manifest.refs);
    var exclusions :| exclusions <= parent.manifest.refs.Values
      && Carries(g, DeltaObjects(packs, e.manifest.newPacks), packRefs, exclusions);
    EveryTipCovered(parent.manifest.refs, e.manifest.refs);
    forall o | Reachable(g, e.manifest.refs.Values, o)
      ensures o in store + DeltaObjects(packs, e.manifest.newPacks)
    {
      var tip :| tip in e.manifest.refs.Values && Reaches(g, tip, o);
      if tip in parent.manifest.refs.Values {
        assert Reachable(g, parent.manifest.refs.Values, o);
      } else {
        assert Reachable(g, packRefs.Values, o);
        if Reachable(g, exclusions, o) {
          var excluded :| excluded in exclusions && Reaches(g, excluded, o);
          assert Reachable(g, parent.manifest.refs.Values, o);
        }
      }
    }
  }

  lemma CompleteGrows(g: Universe, store: set<Oid>, larger: set<Oid>, roots: set<Oid>)
    requires Complete(g, store, roots) && store <= larger
    ensures Complete(g, larger, roots)
  {
  }

  /** Pack completeness: from a repository complete for the refs of any earlier
      generation, the packs of the generations above it make the repository
      complete for the head's refs, over pushes, forced pushes, deletions,
      policy transitions and recoveries alike. */
  lemma {:induction false} LaterPacksSuffice(g: Universe, packs: Packs, store: set<Oid>, chain: seq<Entry>, k: nat)
    requires PackedChain(g, packs, chain) && k < |chain|
    requires Complete(g, store, chain[k].manifest.refs.Values)
    ensures Complete(g, store + ChainObjects(packs, chain[..k]), chain[0].manifest.refs.Values)
  {
    hide Complete, PackedOn, DeltaObjects;
    if k == 0 {
      CompleteGrows(g, store, store + ChainObjects(packs, chain[..0]), chain[0].manifest.refs.Values);
    } else {
      var rest := chain[1..];
      forall i | 0 <= i < |rest| - 1
        ensures PackedOn(g, packs, rest[i], rest[i + 1])
      {
        assert PackedOn(g, packs, chain[i + 1], chain[i + 1 + 1]);
      }
      LaterPacksSuffice(g, packs, store, rest, k - 1);
      assert rest[0] == chain[1];
      OneDelta(g, packs, store + ChainObjects(packs, rest[..k - 1]), chain[0], chain[1]);
      assert chain[..k][0] == chain[0] && chain[..k][1..] == rest[..k - 1];
      assert store + ChainObjects(packs, rest[..k - 1]) + DeltaObjects(packs, chain[0].manifest.newPacks)
          == store + ChainObjects(packs, chain[..k]);
    }
  }

  // ---------------------------------------------------------------------------
  // Progress

  datatype Progress = Progress(importedGeneration: Option<u64>, verifiedRefs: Refs)

  /** What recorded progress claims: everything reachable from the verified refs
      is here, and so is everything the imported generation's refs reach. */
  ghost predicate Sound(g: Universe, store: set<Oid>, progress: Progress, chain: seq<Entry>) {
    && Complete(g, store, progress.verifiedRefs.Values)
    && (progress.importedGeneration.Some? ==>
          && progress.importedGeneration.value < |chain|
          && Complete(g, store, chain[|chain| - 1 - progress.importedGeneration.value].manifest.refs.Values))
  }

  lemma SoundLater(g: Universe, store: set<Oid>, larger: set<Oid>, progress: Progress, chain: seq<Entry>, newer: seq<Entry>)
    requires Sound(g, store, progress, chain)
    requires store <= larger && Extends(newer, chain)
    ensures Sound(g, larger, progress, newer)
  {
    hide Complete;
    CompleteGrows(g, store, larger, progress.verifiedRefs.Values);
    if progress.importedGeneration.Some? {
      var n := progress.importedGeneration.value;
      var k := |chain| - 1 - n;
      assert newer[|newer| - |chain|..][k] == newer[|newer| - 1 - n];
      CompleteGrows(g, store, larger, chain[k].manifest.refs.Values);
    }
  }

  /** The number of entries newer than the imported generation. */
  function Pending(chain: seq<Entry>, after: Option<u64>): (k: nat)
    requires after.Some? ==> after.value < |chain|
    ensures k <= |chain|
  {
    if after.Some? then |chain| - 1 - after.value else |chain|
  }

  /** `import_chain_packs`: oldest first, skipping what was imported before. */
  method ImportChainPacks(packs: Packs, store: set<Oid>, chain: seq<Entry>, after: Option<u64>, ghost root: Root)
    returns (grown: set<Oid>)
    requires Authentic(chain, root)
    requires after.Some? ==> after.value < |chain|
    ensures grown == store + ChainObjects(packs, chain[..Pending(chain, after)])
  {
    hide Authentic;
    ChainShape(chain, root);
    ghost var pending := Pending(chain, after);
    grown := store;
    var i := |chain|;
    while i > 0
      invariant 0 <= i <= |chain|
      invariant grown == store + if i <= pending then ChainObjects(packs, chain[i..pending]) else {}
    {
      i := i - 1;
      if !(after.Some? && chain[i].manifest.generation <= after.value) {
        assert chain[i..pending][0] == chain[i] && chain[i..pending][1..] == chain[i + 1..pending];
        var deltas := chain[i].manifest.newPacks;
        ghost var before := grown;
        var k := 0;
        while k < |deltas|
          invariant 0 <= k <= |deltas|
          invariant grown + DeltaObjects(packs, deltas[k..]) == before + DeltaObjects(packs, deltas)
        {
          assert deltas[k..][0] == deltas[k] && deltas[k..][1..] == deltas[k + 1..];
          grown := grown + packs(deltas[k].id);
          k := k + 1;
        }
        assert deltas[|deltas|..] == [];
      }
    }
    assert chain[0..pending] == chain[..pending];
  }

  class Repository {
    var store: set<Oid>
    var progress: Progress

    constructor ()
      ensures store == {} && progress == Progress(None, map[])
    {
      store := {};
      progress := Progress(None, map[]);
    }

    /** `observe_manifest`: records the shown head as imported only when its
        refs are fully connected here. */
    method Observe(g: Universe, tools: set<Oid> -> GitTools, chain: seq<Entry>, ghost earlier: seq<Entry>)
      requires Sound(g, store, progress, earlier) && Extends(chain, earlier) && chain != []
      requires chain[0].manifest.generation == |chain| - 1
      requires Faithful(g, store, tools(store))
      modifies this`progress
      ensures Sound(g, store, progress, chain)
      ensures progress ==
        if chain[0].manifest.refs == map[]
          || (RefsConnected(g, store, chain[0].manifest.refs) && AllResolveWell(g, store, old(progress).verifiedRefs))
        then Progress(Some(chain[0].manifest.generation), chain[0].manifest.refs)
        else old(progress)
    {
      hide Complete, Faithful, RefsConnected, AllResolveWell;
      var refs := chain[0].manifest.refs;
      SoundLater(g, store, store, progress, earlier, chain);
      var connected := EnsureRefsConnectedSince(g, store, tools(store), refs, progress.verifiedRefs);
      if connected.Ok? {
        AcceptedIsComplete(g, store, refs);
        progress := Progress(Some(chain[0].manifest.generation), refs);
      }
    }

    /** `import_packs`. Progress stays sound whatever happens. On a packed chain
        every import succeeds whose refs are well typed, and while the recorded
        refs still resolve it imports the packs above the recorded generation
        and no others. */
    method Import(
      g: Universe, packs: Packs, tools: set<Oid> -> GitTools, chain: seq<Entry>, ghost earlier: seq<Entry>,
      ghost root: Root)
      returns (r: Result<()>)
      requires Authentic(chain, root)
      requires Sound(g, store, progress, earlier) && Extends(chain, earlier)
      requires forall s :: Faithful(g, s, tools(s))
      modifies this
      ensures old(store) <= store
      ensures Sound(g, store, progress, chain)
      ensures r.Ok? ==>
        && RefsConnected(g, store, chain[0].manifest.refs)
        && progress == Progress(Some(chain[0].manifest.generation), chain[0].manifest.refs)
      ensures r.Err? ==> progress == old(progress)
      ensures PackedChain(g, packs, chain) && AllResolveWell(g, store, chain[0].manifest.refs) ==> r.Ok?
      ensures
        var later := old(store) + ChainObjects(packs, chain[..Pending(chain, old(progress).importedGeneration)]);
        PackedChain(g, packs, chain) ==>
        AllResolveWell(g, later, chain[0].manifest.refs) && AllResolveWell(g, later, old(progress).verifiedRefs) ==>
        store == later
    {
      hide Authentic, Complete, Faithful, RefsConnected, AllResolveWell, PackedChain;
      ChainShape(chain, root);
      var refs := chain[0].manifest.refs;
      SoundLater(g, store, store, progress, earlier, chain);
      ghost var before := store;
      store := ImportChainPacks(packs, store, chain, progress.importedGeneration, root);
      SoundLater(g, before, store, progress, chain, chain);
      if PackedChain(g, packs, chain) {
        PendingPacksSuffice(g, packs, before, progress, chain);
        if AllResolveWell(g, store, refs) {
          ConnectedWhenComplete(g, store, refs);
        }
      }
      var connected := EnsureRefsConnectedSince(g, store, tools(store), refs, progress.verifiedRefs);
      if connected.Err? {
        ghost var partial := store;
        store := ImportChainPacks(packs, store, chain, None, root);
        SoundLater(g, partial, store, progress, chain, chain);
        NothingToReach(g, store);
        NoRefsResolve(g, store);
        connected := EnsureRefsConnectedSince(g, store, tools(store), refs, map[]);
        if PackedChain(g, packs, chain) && AllResolveWell(g, store, refs) {
          AllPacksSuffice(g, packs, partial, chain);
          ConnectedWhenComplete(g, store, refs);
        }
        if connected.Err? {
          return connected;
        }
      }
      AcceptedIsComplete(g, store, refs);
      progress := Progress(Some(chain[0].manifest.generation), refs);
      return Ok(());
    }

    /** The end of `publish_refs`: a checkout that had verified the parent's
        refs has, with the packed objects, verified the successor's. */
    method RecordPublication(
      g: Universe, chain: seq<Entry>, next: Entry, completeGraph: bool, ghost exclusions: set<Oid>,
      ghost earlier: seq<Entry>)
      requires Sound(g, store, progress, earlier) && chain != [] && Extends([next] + chain, earlier)
      requires exclusions <= chain[0].manifest.refs.Values
      requires completeGraph ==>
        Carries(g, store, PackRefs(chain[0].manifest.refs, next.manifest.refs), exclusions)
      modifies this`progress
      ensures Sound(g, store, progress, [next] + chain)
      ensures progress.importedGeneration == old(progress).importedGeneration
      ensures progress.verifiedRefs == if completeGraph && old(progress).verifiedRefs == chain[0].manifest.refs
                                       then next.manifest.refs else old(progress).verifiedRefs
    {
      hide Complete, Carries;
      SoundLater(g, store, store, progress, earlier, [next] + chain);
      if progress.verifiedRefs == chain[0].manifest.refs && completeGraph {
        PublishedIsComplete(g, store, chain[0].manifest.refs, next.manifest.refs, exclusions);
        progress := progress.(verifiedRefs := next.manifest.refs);
      }
    }
  }

  lemma AcceptedIsComplete(g: Universe, store: set<Oid>, refs: Refs)
    requires refs == map[] || RefsConnected(g, store, refs)
    ensures RefsConnected(g, store, refs)
    ensures Complete(g, store, refs.Values)
  {
    EmptyIsConnected(g, store);
  }

  lemma ConnectedWhenComplete(g: Universe, store: set<Oid>, refs: Refs)
    requires Complete(g, store, refs.Values) && AllResolveWell(g, store, refs)
    ensures RefsConnected(g, store, refs)
  {
  }

  lemma NoRefsResolve(g: Universe, store: set<Oid>)
    ensures AllResolveWell(g, store, map[])
    ensures var none: Refs := map[]; none.Values == {}
  {
  }

  lemma AllPacksSuffice(g: Universe, packs: Packs, store: set<Oid>, chain: seq<Entry>)
    requires PackedChain(g, packs, chain)
    ensures Complete(g, store + ChainObjects(packs, chain[..Pending(chain, None)]), chain[0].manifest.refs.Values)
  {
    hide Complete, PackedOn;
    var last := |chain| - 1;
    assert chain[last].manifest.refs.Values == {};
    NothingToReach(g, store);
    LaterPacksSuffice(g, packs, store, chain, last);
    PrefixObjects(packs, chain, last);
    assert chain[..|chain|] == chain;
    CompleteGrows(g, store + ChainObjects(packs, chain[..last]), store + ChainObjects(packs, chain),
                  chain[0].manifest.refs.Values);
  }

  lemma PendingPacksSuffice(g: Universe, packs: Packs, store: set<Oid>, progress: Progress, chain: seq<Entry>)
    requires PackedChain(g, packs, chain) && Sound(g, store, progress, chain)
    ensures Complete(g, store + ChainObjects(packs, chain[..Pending(chain, progress.importedGeneration)]),
                     chain[0].manifest.refs.Values)
  {
    hide Complete, PackedOn;
    if progress.importedGeneration.Some? {
      LaterPacksSuffice(g, packs, store, chain, Pending(chain, progress.importedGeneration));
    } else {
      AllPacksSuffice(g, packs, store, chain);
    }
  }

  lemma {:induction false} PrefixObjects(packs: Packs, chain: seq<Entry>, k: nat)
    requires k <= |chain|
    ensures ChainObjects(packs, chain[..k]) <= ChainObjects(packs, chain)
  {
    hide DeltaObjects;
    if k > 0 {
      PrefixObjects(packs, chain[1..], k - 1);
      assert chain[..k][1..] == chain[1..][..k - 1];
    }
  }

  lemma PublishedIsComplete(g: Universe, store: set<Oid>, parentRefs: Refs, nextRefs: Refs, exclusions: set<Oid>)
    requires Complete(g, store, parentRefs.Values)
    requires exclusions <= parentRefs.Values
    requires Carries(g, store, PackRefs(parentRefs, nextRefs), exclusions)
    ensures Complete(g, store, nextRefs.Values)
  {
    hide Reaches;
    EveryTipCovered(parentRefs, nextRefs);
    forall o | Reachable(g, nextRefs.Values, o)
      ensures o in store
    {
      var tip :| tip in nextRefs.Values && Reaches(g, tip, o);
      if tip in parentRefs.Values {
        assert Reachable(g, parentRefs.Values, o);
      } else {
        assert Reachable(g, PackRefs(parentRefs, nextRefs).Values, o);
        if Reachable(g, exclusions, o) {
          var excluded :| excluded in exclusions && Reaches(g, excluded, o);
          assert Reachable(g, parentRefs.Values, o);
        }
      }
    }
  }
}
