/** What the directory backend stores for a chain, and what a crash leaves of it:
    the objects of src/storage.rs are the manifests and packs of the authentic
    chains of src/repository.rs. */
module ChainStorage {
  import opened Prelude
  import opened Policy
  import opened Manifests
  import opened Chain
  import opened Authenticity
  import opened Persist
  import opened Durability

  /** How IDs and objects are written: hex IDs, and a manifest's exact bytes. */
  datatype Codec = Codec(
    id: Id -> string, pack: nat -> string, manifest: Blob -> string, packText: nat -> string, decode: string -> Blob)

  ghost predicate Faithful(c: Codec) {
    && (forall a, b :: c.id(a) == c.id(b) ==> a == b)
    && (forall a, b :: c.pack(a) == c.pack(b) ==> a == b)
    && (forall blob :: c.decode(c.manifest(blob)) == blob)
  }

  /** `object_path` */
  function PathOf(storage: Path, kind: string, hex: string): Path {
    storage + [kind, if |hex| < 2 then hex else hex[..2], hex]
  }

  function ManifestPath(storage: Path, c: Codec, id: Id): Path {
    PathOf(storage, "manifests", c.id(id))
  }

  function PackPath(storage: Path, c: Codec, pack: nat): Path {
    PathOf(storage, "packs", c.pack(pack))
  }

  lemma PathParts(storage: Path, kind: string, hex: string)
    ensures
      var p := PathOf(storage, kind, hex);
      |p| == |storage| + 3 && p[..|storage|] == storage && p[|storage|] == kind && p[|storage| + 2] == hex
  {
  }

  /** What publishing one generation stores, packs first. */
  function NewObjects(storage: Path, c: Codec, e: Entry): seq<Path> {
    var packs := e.manifest.newPacks;
    seq(|packs|, i requires 0 <= i < |packs| => PackPath(storage, c, packs[i].id)) + [ManifestPath(storage, c, e.id)]
  }

  ghost function ChainObjects(storage: Path, c: Codec, chain: seq<Entry>): set<Path> {
    if chain == [] then {} else SetOf(NewObjects(storage, c, chain[0])) + ChainObjects(storage, c, chain[1..])
  }

  // ---------------------------------------------------------------------------
  // The layout of a repository

  ghost predicate HeadsChain(chain: seq<Entry>, root: Root, c: Codec, text: string) {
    Authentic(chain, root) && c.id(chain[0].id) == text
  }

  ghost function Needs(root: Root, storage: Path, c: Codec, text: string): set<Path> {
    if exists chain :: HeadsChain(chain, root, c, text) then
      var chain :| HeadsChain(chain, root, c, text);
      ChainObjects(storage, c, chain)
    else
      {}
  }

  ghost function TextAt(storage: Path, c: Codec, p: Path): string {
    if exists blob :: p == ManifestPath(storage, c, ObjectId(blob)) then
      var blob :| p == ManifestPath(storage, c, ObjectId(blob));
      c.manifest(blob)
    else if exists pack :: p == PackPath(storage, c, pack) then
      var pack :| p == PackPath(storage, c, pack);
      c.packText(pack)
    else
      ""
  }

  ghost function ChainLayout(root: Root, storage: Path, c: Codec): Layout {
    Layout(storage, p => TextAt(storage, c, p), text => Needs(root, storage, c, text))
  }

  lemma ManifestText(storage: Path, c: Codec, blob: Blob)
    requires Faithful(c)
    ensures TextAt(storage, c, ManifestPath(storage, c, ObjectId(blob))) == c.manifest(blob)
  {
    var p := ManifestPath(storage, c, ObjectId(blob));
    PathParts(storage, "manifests", c.id(ObjectId(blob)));
    forall any: Blob | p == ManifestPath(storage, c, ObjectId(any))
      ensures any == blob
    {
      PathParts(storage, "manifests", c.id(ObjectId(any)));
      assert c.id(ObjectId(any)) == c.id(ObjectId(blob));
    }
  }

  lemma PackText(storage: Path, c: Codec, pack: nat)
    requires Faithful(c)
    ensures TextAt(storage, c, PackPath(storage, c, pack)) == c.packText(pack)
  {
    var p := PackPath(storage, c, pack);
    PathParts(storage, "packs", c.pack(pack));
    forall blob
      ensures p != ManifestPath(storage, c, ObjectId(blob))
    {
      PathParts(storage, "manifests", c.id(ObjectId(blob)));
    }
    forall any | p == PackPath(storage, c, any)
      ensures any == pack
    {
      PathParts(storage, "packs", c.pack(any));
    }
  }

  /** A head needs exactly the manifests and packs of its chain, because its ID
      determines the chain. */
  lemma HeadNeedsItsChain(chain: seq<Entry>, root: Root, storage: Path, c: Codec)
    requires Authentic(chain, root) && Faithful(c)
    ensures ChainLayout(root, storage, c).needs(c.id(chain[0].id)) == ChainObjects(storage, c, chain)
  {
    hide Authentic;
    var text := c.id(chain[0].id);
    assert HeadsChain(chain, root, c, text);
    forall other | HeadsChain(other, root, c, text)
      ensures other == chain
    {
      SameHeadSameChain(other, chain, root);
    }
  }

  lemma {:induction false} ChainObjectsPlaced(root: Root, storage: Path, c: Codec, chain: seq<Entry>, p: Path)
    requires p in ChainObjects(storage, c, chain)
    ensures ObjectPath(ChainLayout(root, storage, c), p)
  {
    if p in NewObjects(storage, c, chain[0]) {
      NewObjectsPlaced(root, storage, c, chain[0], p);
    } else {
      ChainObjectsPlaced(root, storage, c, chain[1..], p);
    }
  }

  lemma NewObjectsPlaced(root: Root, storage: Path, c: Codec, e: Entry, p: Path)
    requires p in NewObjects(storage, c, e)
    ensures ObjectPath(ChainLayout(root, storage, c), p)
  {
    var objects := NewObjects(storage, c, e);
    var i :| 0 <= i < |objects| && objects[i] == p;
    if i < |e.manifest.newPacks| {
      PathParts(storage, "packs", c.pack(e.manifest.newPacks[i].id));
    } else {
      PathParts(storage, "manifests", c.id(e.id));
    }
  }

  lemma LayoutIsWellLaid(root: Root, storage: Path, c: Codec)
    ensures WellLaid(ChainLayout(root, storage, c))
  {
    hide ObjectPath, HeadsChain;
    var lay := ChainLayout(root, storage, c);
    forall text, p | p in lay.needs(text)
      ensures ObjectPath(lay, p)
    {
      assert p in Needs(root, storage, c, text);
      var chain: seq<Entry> :| p in ChainObjects(storage, c, chain);
      ChainObjectsPlaced(root, storage, c, chain, p);
    }
  }

  /** Publishing a generation on top of a chain, or as the first one, stores all
      that the new head needs and the old one did not. */
  lemma GenerationStoresItsNeeds(older: seq<Entry>, e: Entry, root: Root, storage: Path, c: Codec)
    requires Faithful(c) && Authentic([e] + older, root) && (older != [] ==> Authentic(older, root))
    ensures
      var lay := ChainLayout(root, storage, c);
      var expected := if older == [] then None else Some(c.id(older[0].id));
      var objects := NewObjects(storage, c, e);
      && WellLaid(lay) && objects != []
      && (forall j :: 0 <= j < |objects| ==> ObjectPath(lay, objects[j]))
      && (forall p :: p in lay.needs(c.id(e.id)) <==> p in objects || p in Needed(lay, expected))
  {
    hide Authentic, ObjectPath, WellLaid, NewObjects;
    var lay := ChainLayout(root, storage, c);
    var chain := [e] + older;
    LayoutIsWellLaid(root, storage, c);
    HeadNeedsItsChain(chain, root, storage, c);
    assert chain[1..] == older && chain[0] == e;
    if older != [] {
      HeadNeedsItsChain(older, root, storage, c);
    }
    var objects := NewObjects(storage, c, e);
    assert objects != [] by {
      StoresItsManifest(storage, c, e);
    }
    forall j | 0 <= j < |objects|
      ensures ObjectPath(lay, objects[j])
    {
      NewObjectsPlaced(root, storage, c, e, objects[j]);
    }
  }

  lemma StoresItsManifest(storage: Path, c: Codec, e: Entry)
    ensures ManifestPath(storage, c, e.id) in NewObjects(storage, c, e)
    ensures forall pack <- e.manifest.newPacks :: PackPath(storage, c, pack.id) in NewObjects(storage, c, e)
  {
    var objects := NewObjects(storage, c, e);
    assert objects[|objects| - 1] == ManifestPath(storage, c, e.id);
    forall pack | pack in e.manifest.newPacks
      ensures PackPath(storage, c, pack.id) in objects
    {
      var i :| 0 <= i < |e.manifest.newPacks| && e.manifest.newPacks[i] == pack;
      assert objects[i] == PackPath(storage, c, pack.id);
    }
  }

  lemma {:induction false} ChainHoldsEntry(storage: Path, c: Codec, chain: seq<Entry>, e: Entry)
    requires e in chain
    ensures forall p :: p in NewObjects(storage, c, e) ==> p in ChainObjects(storage, c, chain)
  {
    hide NewObjects;
    if e != chain[0] {
      assert e in chain[1..];
      ChainHoldsEntry(storage, c, chain[1..], e);
    }
  }

  // ---------------------------------------------------------------------------
  // Reading what a crash left

  /** `read_object` for manifests, from the files that a crash left. */
  function ReadView(storage: Path, c: Codec, view: map<Path, Seen>): Reader {
    (id: Id) =>
      var p := ManifestPath(storage, c, id);
      if p in view && view[p].SeenFile? then Ok(c.decode(view[p].text)) else Err({ObjectUnavailable})
  }

  ghost predicate PacksThere(storage: Path, c: Codec, view: map<Path, Seen>, chain: seq<Entry>) {
    forall e, pack :: e in chain && pack in e.manifest.newPacks ==>
      var p := PackPath(storage, c, pack.id);
      p in view && view[p] == SeenFile(c.packText(pack.id))
  }

  /** Every device that can unwrap the head's key opens exactly this chain. */
  ghost predicate OpensFor(storage: Path, c: Codec, view: map<Path, Seen>, chain: seq<Entry>, root: Root)
    requires |chain| > 0
  {
    forall key: KeyFile :: key.root == root && UnwrapGenerationKey(chain[0].header, key) == Ok(chain[0].key) ==>
      OpenChain(ReadView(storage, c, view), chain[0].id, key) == Ok(chain)
  }

  /** End to end: whatever HEAD a crash leaves, at any moment of any publication,
      it is the head of an authentic chain whose manifests and packs are all
      there, so every device that can unwrap that head's key opens exactly that
      chain. */
  lemma CrashLeavesOpenableChain(
    s: DiskState, view: map<Path, Seen>, root: Root, storage: Path, c: Codec, heads: set<string>)
    requires Faithful(c) && AfterCrash(s, view)
    requires HeadSafe(s, ChainLayout(root, storage, c), heads) && storage + ["HEAD"] in view
    requires forall head <- heads :: exists chain :: HeadsChain(chain, root, c, head)
    ensures exists chain, head ::
      && head in heads && view[storage + ["HEAD"]] == SeenFile(head) && HeadsChain(chain, root, c, head)
      && PacksThere(storage, c, view, chain)
      && OpensFor(storage, c, view, chain, root)
  {
    hide Authentic, HeadSafe, AfterCrash, OpenChain, UnwrapGenerationKey, Faithful, PacksThere;
    var lay := ChainLayout(root, storage, c);
    CrashLeavesCompleteHead(s, view, lay, heads);
    var head :| head in heads && SurvivesWith(view, lay, head);
    var chain: seq<Entry> :| HeadsChain(chain, root, c, head);
    HeadNeedsItsChain(chain, root, storage, c);
    forall e | e in chain
      ensures EntryThere(storage, c, view, e)
    {
      EntrySurvives(chain, root, storage, c, view, e);
    }
    ThereIsServed(storage, c, view, chain);
    forall key: KeyFile | key.root == root && UnwrapGenerationKey(chain[0].header, key) == Ok(chain[0].key)
      ensures OpenChain(ReadView(storage, c, view), chain[0].id, key) == Ok(chain)
    {
      AuthenticIsAccepted(ReadView(storage, c, view), chain, key);
    }
  }

  ghost predicate EntryThere(storage: Path, c: Codec, view: map<Path, Seen>, e: Entry) {
    && e.id.ObjectId?
    && ReadView(storage, c, view)(e.id) == Ok(e.id.blob)
    && forall pack <- e.manifest.newPacks ::
         var p := PackPath(storage, c, pack.id);
         p in view && view[p] == SeenFile(c.packText(pack.id))
  }

  lemma ThereIsServed(storage: Path, c: Codec, view: map<Path, Seen>, chain: seq<Entry>)
    requires forall e <- chain :: EntryThere(storage, c, view, e)
    ensures Served(ReadView(storage, c, view), chain) && PacksThere(storage, c, view, chain)
  {
    hide ReadView;
  }

  lemma EntrySurvives(chain: seq<Entry>, root: Root, storage: Path, c: Codec, view: map<Path, Seen>, e: Entry)
    requires Faithful(c) && Authentic(chain, root) && e in chain
    requires forall p :: p in ChainObjects(storage, c, chain) ==> p in view && view[p] == SeenFile(TextAt(storage, c, p))
    ensures EntryThere(storage, c, view, e)
  {
    hide Authentic, TextAt, NewObjects, ChainObjects;
    EntryHasBlob(chain, root, e);
    ChainHoldsEntry(storage, c, chain, e);
    StoresItsManifest(storage, c, e);
    ManifestText(storage, c, e.id.blob);
    forall pack | pack in e.manifest.newPacks
      ensures
        var p := PackPath(storage, c, pack.id);
        p in view && view[p] == SeenFile(c.packText(pack.id))
    {
      PackText(storage, c, pack.id);
    }
  }

  lemma EntryHasBlob(chain: seq<Entry>, root: Root, e: Entry)
    requires Authentic(chain, root) && e in chain
    ensures e.id.ObjectId?
  {
    hide Authentic;
    var i :| 0 <= i < |chain| && chain[i] == e;
    AuthenticSuffix(chain, root, i);
    HeadHasBlob(chain[i..], root);
  }

  lemma HeadHasBlob(chain: seq<Entry>, root: Root)
    requires Authentic(chain, root)
    ensures chain[0].id.ObjectId?
  {
    hide OpenManifest, VerifyManifest;
  }
}
