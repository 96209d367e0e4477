/** What a carrier checkout reads: `open_object` and `local_root_file` over the
    sparse working tree and the opened commit, the merge that a publication
    commits, and what `restore_checkout` leaves (src/storage.rs). */
module CarrierReads {
  import opened Prelude
  import opened Encodings
  import opened CarrierChunks

  const HEAD: string := "HEAD"

  /** The chunk files in one object directory, by name. */
  type Dir = map<string, Bytes>

  /** Root files, and object directories by their path. In a working tree an
      object directory may be empty; Git tracks no empty directory. */
  datatype Tree = Tree(files: map<string, string>, objects: map<string, Dir>)

  const EMPTY: Tree := Tree(map[], map[])

  function LookupFile(tree: Tree, name: string): Option<string> {
    if name in tree.files then Some(tree.files[name]) else None
  }

  function DirOf(tree: Tree, path: string): Dir {
    if path in tree.objects then tree.objects[path] else map[]
  }

  // ---------------------------------------------------------------------------
  // Reading one object

  /** The directory holds exactly these chunks under their canonical names. */
  ghost predicate Splits(dir: Dir, chunks: seq<Bytes>) {
    && CanonicalChunks(chunks) && |chunks| <= NAMES
    && (forall i :: 0 <= i < |chunks| ==> Name(i) in dir && dir[Name(i)] == chunks[i])
    && (forall name <- dir :: exists i :: 0 <= i < |chunks| && name == Name(i))
  }

  lemma SplitsLength(dir: Dir, a: seq<Bytes>, b: seq<Bytes>)
    requires Splits(dir, a) && Splits(dir, b)
    ensures |b| <= |a|
  {
    hide Name;
    if |a| < |b| {
      assert Name(|a|) in dir;
      var i :| 0 <= i < |a| && Name(|a|) == Name(i);
      NamesOrdered(i, |a|);
      BelowIsOrder(Name(i), Name(|a|));
    }
  }

  lemma SplitsUnique(dir: Dir, a: seq<Bytes>, b: seq<Bytes>)
    requires Splits(dir, a) && Splits(dir, b)
    ensures a == b
  {
    hide Name;
    SplitsLength(dir, a, b);
    SplitsLength(dir, b, a);
  }

  /** What reading a whole object yields: its bytes, the failure that names the
      object unavailable, or any other failure. */
  datatype Outcome = Data(bytes: Bytes) | Unavailable | Broken

  ghost predicate Whole(dir: Dir, limit: nat) {
    exists chunks :: Splits(dir, chunks) && |chunks| <= limit
  }

  ghost function DirOutcome(dir: Dir, limit: nat): Outcome {
    if Whole(dir, limit) then
      var chunks :| Splits(dir, chunks) && |chunks| <= limit;
      Data(Flatten(chunks))
    else Broken
  }

  lemma OutcomeOf(dir: Dir, limit: nat, chunks: seq<Bytes>)
    requires Splits(dir, chunks) && |chunks| <= limit
    ensures DirOutcome(dir, limit) == Data(Flatten(chunks))
  {
    hide Splits, Flatten;
    var chosen :| Splits(dir, chosen) && |chosen| <= limit && DirOutcome(dir, limit) == Data(Flatten(chosen));
    SplitsUnique(dir, chunks, chosen);
  }

  /** The opened commit's copy, through the tree listing. */
  ghost function ReadCommit(tree: Tree, path: string): Outcome {
    if path in tree.objects then DirOutcome(tree.objects[path], MAX_CHUNKS) else Unavailable
  }

  /** `open_object`: an object directory in the working tree decides, even an
      empty one; only without it is the commit read. */
  ghost function ReadObject(work: Tree, commit: Tree, path: string): Outcome {
    if path in work.objects then DirOutcome(work.objects[path], NAMES) else ReadCommit(commit, path)
  }

  function ReadFile(work: Tree, commit: Tree, name: string): Option<string> {
    if name in work.files then Some(work.files[name]) else LookupFile(commit, name)
  }

  // ---------------------------------------------------------------------------
  // The readers behind these outcomes

  predicate NoRepeats<T(==)>(s: seq<T>) {
    forall i, j :: 0 <= i < j < |s| ==> s[i] != s[j]
  }

  lemma {:induction false} CountedOnce<T>(s: seq<T>, x: T)
    requires NoRepeats(s)
    ensures multiset(s)[x] == if x in s then 1 else 0
  {
    if s != [] {
      assert s == [s[0]] + s[1..];
      CountedOnce(s[1..], x);
      assert s[0] !in s[1..];
    }
  }

  lemma SameMultiset<T>(s: seq<T>, t: seq<T>)
    requires NoRepeats(s) && NoRepeats(t)
    requires forall x :: x in s <==> x in t
    ensures multiset(s) == multiset(t)
  {
    forall x
      ensures multiset(s)[x] == multiset(t)[x]
    {
      CountedOnce(s, x);
      CountedOnce(t, x);
    }
  }

  /** A listing of the directory, in any order. */
  ghost predicate Lists(listing: seq<FileEntry>, dir: Dir) {
    && |listing| <= NAMES && NoRepeats(listing)
    && (forall f <- listing :: f.regular && f.name in dir && dir[f.name] == f.data)
    && (forall name <- dir :: FileEntry(name, true, dir[name]) in listing)
  }

  lemma NamesDiffer(i: nat, j: nat)
    requires i < NAMES && j < NAMES && i != j
    ensures Name(i) != Name(j)
  {
    hide Name;
    if i < j {
      NamesOrdered(i, j);
    } else {
      NamesOrdered(j, i);
    }
    BelowIsOrder(Name(i), Name(j));
  }

  lemma FilesNoRepeats(chunks: seq<Bytes>)
    requires |chunks| <= NAMES
    ensures NoRepeats(FilesOf(chunks))
  {
    hide Name;
    forall i, j | 0 <= i < j < |chunks|
      ensures FilesOf(chunks)[i] != FilesOf(chunks)[j]
    {
      NamesDiffer(i, j);
    }
  }

  lemma SplitIsStored(listing: seq<FileEntry>, dir: Dir, chunks: seq<Bytes>)
    requires Lists(listing, dir) && CanonicalChunks(chunks) && |chunks| <= NAMES
    ensures Splits(dir, chunks) <==> multiset(listing) == multiset(FilesOf(chunks))
  {
    hide Name, CanonicalChunks;
    var files := FilesOf(chunks);
    if Splits(dir, chunks) {
      SplitIsListed(listing, dir, chunks);
      FilesNoRepeats(chunks);
      SameMultiset(listing, files);
    }
    if multiset(listing) == multiset(files) {
      forall f
        ensures f in listing <==> f in files
      {
        assert f in multiset(listing) <==> f in multiset(files);
      }
      forall i | 0 <= i < |chunks|
        ensures Name(i) in dir && dir[Name(i)] == chunks[i]
      {
        assert files[i] in listing;
      }
      forall name | name in dir
        ensures exists i :: 0 <= i < |chunks| && name == Name(i)
      {
        var f := FileEntry(name, true, dir[name]);
        assert f in files;
        var i :| 0 <= i < |files| && files[i] == f;
      }
    }
  }

  lemma SplitIsListed(listing: seq<FileEntry>, dir: Dir, chunks: seq<Bytes>)
    requires Lists(listing, dir) && Splits(dir, chunks)
    ensures forall f :: f in listing <==> f in FilesOf(chunks)
  {
    hide Name, CanonicalChunks;
    var files := FilesOf(chunks);
    forall f
      ensures f in listing <==> f in files
    {
      if f in listing {
        var i :| 0 <= i < |chunks| && f.name == Name(i);
        assert files[i] == f;
      }
      if f in files {
        var i :| 0 <= i < |files| && files[i] == f;
      }
    }
  }

  /** The outcome in the working tree is what `validated_chunk_paths` and the
      chunk reader give for the directory, in any listing order. */
  lemma DirectoryOutcome(listing: seq<FileEntry>, dir: Dir)
    requires Lists(listing, dir)
    ensures DirOutcome(dir, NAMES) ==
      if DenseFiles(Sort(listing, FileName)) then Data(Flatten(DataOf(Sort(listing, FileName)))) else Broken
  {
    hide Splits, Lists, DenseFiles, Sort, Flatten, FilesOf, CanonicalChunks, DataOf;
    ListsFit(listing, dir);
    DirectoryAcceptsExactly(listing);
    if DenseFiles(Sort(listing, FileName)) {
      var content :| StoredAs(listing, content);
      var chunks :| CanonicalChunks(chunks) && |chunks| <= NAMES && Flatten(chunks) == content
        && multiset(listing) == multiset(FilesOf(chunks));
      SplitIsStored(listing, dir, chunks);
      OutcomeOf(dir, NAMES, chunks);
    } else if Whole(dir, NAMES) {
      var chunks :| Splits(dir, chunks) && |chunks| <= NAMES;
      SplitsAreCanonical(dir, chunks);
      SplitIsStored(listing, dir, chunks);
      assert StoredAs(listing, Flatten(chunks));
    }
  }

  lemma ListsFit(listing: seq<FileEntry>, dir: Dir)
    requires Lists(listing, dir)
    ensures |listing| <= NAMES
  {
  }

  lemma SplitsAreCanonical(dir: Dir, chunks: seq<Bytes>)
    requires Splits(dir, chunks)
    ensures CanonicalChunks(chunks) && |chunks| <= NAMES
  {
  }

  /** A tree listing and its blobs show the same files, entry by entry. */
  ghost predicate ShowsFiles(listing: seq<TreeEntry>, files: seq<FileEntry>, directory: string, blobs: map<nat, Bytes>) {
    |listing| == |files| && forall i :: 0 <= i < |files| ==> EntryOf(listing[i], files[i], directory, blobs)
  }

  /** Reorders the files the way the listing is reordered. */
  lemma {:induction false} FilesInOrder(
    listing: seq<TreeEntry>, target: seq<TreeEntry>, files: seq<FileEntry>, directory: string, blobs: map<nat, Bytes>)
    returns (ordered: seq<FileEntry>)
    requires multiset(listing) == multiset(target) && ShowsFiles(listing, files, directory, blobs)
    ensures multiset(ordered) == multiset(files) && ShowsFiles(target, ordered, directory, blobs)
    decreases |target|
  {
    hide ShowsFiles;
    if target == [] {
      NothingShown(listing, files, directory, blobs);
      ordered := [];
    } else {
      var k := FindEntry(listing, target);
      ShowsRest(listing, files, k, directory, blobs);
      var l, f := listing[..k] + listing[k + 1..], files[..k] + files[k + 1..];
      var rest := FilesInOrder(l, target[1..], f, directory, blobs);
      ordered := [files[k]] + rest;
      ShowsCons(target, files, k, rest, directory, blobs);
    }
  }

  lemma NothingShown(listing: seq<TreeEntry>, files: seq<FileEntry>, directory: string, blobs: map<nat, Bytes>)
    requires multiset(listing) == multiset{} && ShowsFiles(listing, files, directory, blobs)
    ensures files == [] && ShowsFiles([], [], directory, blobs)
  {
    assert |listing| == |multiset(listing)|;
  }

  lemma ShowsRest(listing: seq<TreeEntry>, files: seq<FileEntry>, k: nat, directory: string, blobs: map<nat, Bytes>)
    requires ShowsFiles(listing, files, directory, blobs) && k < |listing|
    ensures k < |files| && EntryOf(listing[k], files[k], directory, blobs)
    ensures ShowsFiles(listing[..k] + listing[k + 1..], files[..k] + files[k + 1..], directory, blobs)
  {
    hide EntryOf;
    WithoutOne(files, listing, k, directory, blobs);
  }

  lemma ShowsCons(
    target: seq<TreeEntry>, files: seq<FileEntry>, k: nat, rest: seq<FileEntry>, directory: string, blobs: map<nat, Bytes>)
    requires target != [] && k < |files| && EntryOf(target[0], files[k], directory, blobs)
    requires ShowsFiles(target[1..], rest, directory, blobs)
    requires multiset(rest) == multiset(files[..k] + files[k + 1..])
    ensures ShowsFiles(target, [files[k]] + rest, directory, blobs)
    ensures multiset([files[k]] + rest) == multiset(files)
  {
    hide EntryOf;
    RemovesAt(files, k);
    assert multiset([files[k]] + rest) == multiset{files[k]} + multiset(rest);
    var ordered := [files[k]] + rest;
    forall i | 0 <= i < |ordered|
      ensures EntryOf(target[i], ordered[i], directory, blobs)
    {
      if i > 0 {
        assert EntryOf(target[1..][i - 1], rest[i - 1], directory, blobs);
      }
    }
  }

  lemma FindEntry(listing: seq<TreeEntry>, target: seq<TreeEntry>) returns (k: nat)
    requires multiset(listing) == multiset(target) && target != []
    ensures k < |listing| && listing[k] == target[0]
    ensures multiset(listing[..k] + listing[k + 1..]) == multiset(target[1..])
  {
    assert target[0] in multiset(listing);
    k :| 0 <= k < |listing| && listing[k] == target[0];
    RemovesAt(listing, k);
    assert target == [target[0]] + target[1..];
  }

  lemma SameTail(directory: string, a: string, b: string)
    requires directory + "/" + a == directory + "/" + b
    ensures a == b
  {
    var prefix := directory + "/";
    assert a == (prefix + a)[|prefix|..] && b == (prefix + b)[|prefix|..];
  }

  lemma CommittedIsStored(
    listing: seq<TreeEntry>, files: seq<FileEntry>, directory: string, blobs: map<nat, Bytes>, content: Bytes)
    requires ShowsFiles(listing, files, directory, blobs)
    ensures CommittedAs(listing, directory, blobs, content) <==> StoredAs(files, content) && |files| <= MAX_CHUNKS
  {
    hide Name, Flatten, CanonicalChunks;
    if StoredAs(files, content) && |files| <= MAX_CHUNKS {
      StoredCommits(files, content, directory, listing, blobs);
    }
    if CommittedAs(listing, directory, blobs, content) {
      var entries: seq<TreeEntry> :|
        && multiset(listing) == multiset(entries)
        && DenseListing(entries, directory)
        && (forall i :: 0 <= i < |entries| ==> entries[i].blob in blobs)
        && CanonicalChunks(BlobsOf(entries, blobs))
        && Flatten(BlobsOf(entries, blobs)) == content;
      var ordered := FilesInOrder(listing, entries, files, directory, blobs);
      OrderedIsSplit(entries, ordered, directory, blobs);
      assert |files| == |multiset(files)| == |multiset(ordered)| == |ordered|;
    }
  }

  lemma OrderedIsSplit(entries: seq<TreeEntry>, ordered: seq<FileEntry>, directory: string, blobs: map<nat, Bytes>)
    requires DenseListing(entries, directory) && ShowsFiles(entries, ordered, directory, blobs)
    ensures |ordered| <= MAX_CHUNKS && ordered == FilesOf(BlobsOf(entries, blobs))
  {
    hide Name;
    var files := FilesOf(BlobsOf(entries, blobs));
    forall i | 0 <= i < |ordered|
      ensures ordered[i] == files[i]
    {
      assert EntryOf(entries[i], ordered[i], directory, blobs);
      SameTail(directory, ordered[i].name, Name(i));
    }
  }

  /** The outcome in the commit is what the listing parser and the blob reader
      give for the committed directory, in any listing order. */
  lemma CommitOutcome(
    listing: seq<TreeEntry>, files: seq<FileEntry>, dir: Dir, directory: string, blobs: map<nat, Bytes>, content: Bytes)
    requires Lists(files, dir) && ShowsFiles(listing, files, directory, blobs)
    ensures DirOutcome(dir, MAX_CHUNKS) == Data(content) <==> CommittedAs(listing, directory, blobs, content)
  {
    hide Splits, Lists, Flatten, FilesOf, CanonicalChunks, ShowsFiles, CommittedAs;
    CommittedIsStored(listing, files, directory, blobs, content);
    if DirOutcome(dir, MAX_CHUNKS) == Data(content) {
      var chunks :| Splits(dir, chunks) && |chunks| <= MAX_CHUNKS && Flatten(chunks) == content;
      SplitsAreCanonical(dir, chunks);
      SplitIsStored(files, dir, chunks);
      StoredLength(files, chunks);
    }
    if StoredAs(files, content) && |files| <= MAX_CHUNKS {
      var chunks :| CanonicalChunks(chunks) && |chunks| <= NAMES && Flatten(chunks) == content
        && multiset(files) == multiset(FilesOf(chunks));
      SplitIsStored(files, dir, chunks);
      StoredLength(files, chunks);
      OutcomeOf(dir, MAX_CHUNKS, chunks);
    }
  }

  lemma StoredLength(files: seq<FileEntry>, chunks: seq<Bytes>)
    requires |chunks| <= NAMES && multiset(files) == multiset(FilesOf(chunks))
    ensures |files| == |chunks|
  {
    assert |files| == |multiset(files)| == |multiset(FilesOf(chunks))|;
  }

  // ---------------------------------------------------------------------------
  // Reads that equal the commit

  /** Every chunk file of the working tree is tracked by the commit. */
  ghost predicate AllTracked(work: Tree, commit: Tree) {
    forall path <- work.objects :: work.objects[path].Keys <= DirOf(commit, path).Keys
  }

  /** The chunk files of one working directory that the commit tracks. */
  function Kept(work: Tree, commit: Tree, path: string): Dir {
    var tracked := DirOf(commit, path);
    map name | name in DirOf(work, path) && name in tracked :: DirOf(work, path)[name]
  }

  /** One object directory of the working tree does not change what the commit's
      object reads as: every committed chunk of a readable object is there,
      unchanged, and no unreadable object has been made readable. */
  ghost predicate ObjectAgrees(work: Tree, commit: Tree, path: string)
    requires path in work.objects
  {
    if ReadCommit(commit, path).Data? then Kept(work, commit, path) == commit.objects[path]
    else !Whole(Kept(work, commit, path), NAMES)
  }

  ghost predicate ObjectsAgree(work: Tree, commit: Tree) {
    forall path <- work.objects :: ObjectAgrees(work, commit, path)
  }

  /** No directory stands for an object that the commit does not hold. */
  predicate NoStrangers(work: Tree, commit: Tree) {
    work.objects.Keys <= commit.objects.Keys
  }

  predicate FilesAgree(work: Tree, commit: Tree) {
    forall name :: name in work.files && name != HEAD && name in commit.files ==> work.files[name] == commit.files[name]
  }

  function BytesOf(outcome: Outcome): Option<Bytes> {
    if outcome.Data? then Some(outcome.bytes) else None
  }

  /** Every object yields the bytes the commit holds, or fails where it does. */
  ghost predicate SameBytes(work: Tree, commit: Tree) {
    forall path :: BytesOf(ReadObject(work, commit, path)) == BytesOf(ReadCommit(commit, path))
  }

  /** The same, and an object the commit lacks is reported unavailable. */
  ghost predicate SameOutcomes(work: Tree, commit: Tree) {
    forall path :: ReadObject(work, commit, path) == ReadCommit(commit, path)
  }

  lemma WholeMeansData(dir: Dir, limit: nat)
    ensures DirOutcome(dir, limit).Data? <==> Whole(dir, limit)
    ensures !DirOutcome(dir, limit).Data? ==> DirOutcome(dir, limit) == Broken
  {
  }

  /** Two directories with the same bytes hold the same chunks. */
  lemma SameBytesSameDir(a: Dir, b: Dir, m: nat, n: nat)
    requires DirOutcome(a, m).Data? && DirOutcome(a, m) == DirOutcome(b, n)
    ensures a == b
  {
    hide Splits, Flatten, Name;
    var x :| Splits(a, x) && |x| <= m && DirOutcome(a, m) == Data(Flatten(x));
    var y :| Splits(b, y) && |y| <= n && DirOutcome(b, n) == Data(Flatten(y));
    SplitsAreCanonical(a, x);
    SplitsAreCanonical(b, y);
    SplitIsUnique(x, y);
    SplitsDetermine(a, b, x);
  }

  lemma SplitsDetermine(a: Dir, b: Dir, chunks: seq<Bytes>)
    requires Splits(a, chunks) && Splits(b, chunks)
    ensures a == b
  {
    hide Name, CanonicalChunks;
    forall name
      ensures name in a <==> name in b
      ensures name in a ==> a[name] == b[name]
    {
    }
  }

  lemma LargerLimit(dir: Dir, m: nat, n: nat)
    requires m <= n && DirOutcome(dir, m).Data?
    ensures DirOutcome(dir, n) == DirOutcome(dir, m)
  {
    hide Splits, Flatten;
    var x :| Splits(dir, x) && |x| <= m && DirOutcome(dir, m) == Data(Flatten(x));
    OutcomeOf(dir, n, x);
  }

  lemma EmptyIsNotWhole(limit: nat)
    ensures !Whole(map[], limit)
  {
    hide Name;
    var none: Dir := map[];
    forall chunks
      ensures !Splits(none, chunks)
    {
      assert |chunks| <= NAMES && |chunks| > 0 ==> Name(0) !in none;
    }
  }

  /** A directory with one chunk. */
  lemma SingleChunk(data: Bytes, limit: nat)
    requires 0 < |data| <= CHUNK && limit >= 1
    ensures DirOutcome(map[Name(0) := data], limit) == Data(data)
  {
    hide Name, Whole, DirOutcome, Flatten;
    assert Splits(map[Name(0) := data], [data]);
    OutcomeOf(map[Name(0) := data], limit, [data]);
    FlattenStep([data]);
    FlattenStep([]);
    assert [data][1..] == [];
  }

  lemma ObjectReadsAgree(work: Tree, commit: Tree, path: string)
    requires AllTracked(work, commit) && path in work.objects
    ensures BytesOf(ReadObject(work, commit, path)) == BytesOf(ReadCommit(commit, path)) <==>
      ObjectAgrees(work, commit, path)
    ensures ReadObject(work, commit, path) == ReadCommit(commit, path) <==>
      ObjectAgrees(work, commit, path) && path in commit.objects
  {
    hide Whole, DirOutcome;
    var dir := work.objects[path];
    assert Kept(work, commit, path) == dir;
    WholeMeansData(dir, NAMES);
    if path in commit.objects {
      var committed := commit.objects[path];
      WholeMeansData(committed, MAX_CHUNKS);
      if DirOutcome(committed, MAX_CHUNKS).Data? {
        LargerLimit(committed, MAX_CHUNKS, NAMES);
        if DirOutcome(dir, NAMES) == DirOutcome(committed, MAX_CHUNKS) {
          SameBytesSameDir(dir, committed, NAMES, MAX_CHUNKS);
        }
      }
    } else {
      assert dir == map[];
      EmptyIsNotWhole(NAMES);
    }
  }

  /** Over a working tree whose files are all tracked, the bytes read equal the
      commit's if and only if every object directory agrees with it; the
      failures do too if and only if, in addition, no directory stands for an
      object the commit lacks. */
  lemma TrackedReads(work: Tree, commit: Tree)
    requires AllTracked(work, commit)
    ensures SameBytes(work, commit) <==> ObjectsAgree(work, commit)
    ensures SameOutcomes(work, commit) <==> ObjectsAgree(work, commit) && NoStrangers(work, commit)
  {
    hide ObjectAgrees, ReadObject, ReadCommit;
    forall path
      ensures path in work.objects ==>
        (BytesOf(ReadObject(work, commit, path)) == BytesOf(ReadCommit(commit, path)) <==> ObjectAgrees(work, commit, path))
      ensures path in work.objects ==>
        (ReadObject(work, commit, path) == ReadCommit(commit, path) <==>
          ObjectAgrees(work, commit, path) && path in commit.objects)
      ensures path !in work.objects ==> ReadObject(work, commit, path) == ReadCommit(commit, path)
    {
      if path in work.objects {
        ObjectReadsAgree(work, commit, path);
      } else {
        NoDirectoryReadsCommit(work, commit, path);
      }
    }
  }

  lemma NoDirectoryReadsCommit(work: Tree, commit: Tree, path: string)
    requires path !in work.objects
    ensures ReadObject(work, commit, path) == ReadCommit(commit, path)
  {
  }

  // ---------------------------------------------------------------------------
  // Restoration

  /** What `restore_checkout` leaves of the working tree: HEAD and every
      untracked file are removed; every directory stays, emptied or not. */
  function Restored(work: Tree, commit: Tree): Tree {
    Tree(map name | name in work.files && name != HEAD && name in commit.files :: work.files[name],
         map path | path in work.objects :: Kept(work, commit, path))
  }

  lemma RestoredAgrees(work: Tree, commit: Tree)
    ensures AllTracked(Restored(work, commit), commit)
    ensures ObjectsAgree(Restored(work, commit), commit) <==> ObjectsAgree(work, commit)
    ensures NoStrangers(Restored(work, commit), commit) <==> NoStrangers(work, commit)
  {
    hide Whole, ReadCommit;
    var left := Restored(work, commit);
    forall path | path in work.objects
      ensures left.objects[path].Keys <= DirOf(commit, path).Keys
      ensures Kept(left, commit, path) == Kept(work, commit, path)
    {
      assert left.objects[path] == Kept(work, commit, path);
    }
    forall path | path in work.objects
      ensures ObjectAgrees(left, commit, path) <==> ObjectAgrees(work, commit, path)
    {
    }
  }

  /** After a restoration, exactly: root files other than HEAD read as committed
      if and only if no tracked one was replaced, HEAD always does; objects yield
      the commit's bytes if and only if every object directory agrees with the
      commit; and absent objects are still reported unavailable if and only if
      no directory had been made for one. */
  lemma RestoredReads(work: Tree, commit: Tree)
    ensures (forall name :: ReadFile(Restored(work, commit), commit, name) == LookupFile(commit, name)) <==>
      FilesAgree(work, commit)
    ensures ReadFile(Restored(work, commit), commit, HEAD) == LookupFile(commit, HEAD)
    ensures SameBytes(Restored(work, commit), commit) <==> ObjectsAgree(work, commit)
    ensures SameOutcomes(Restored(work, commit), commit) <==> ObjectsAgree(work, commit) && NoStrangers(work, commit)
  {
    hide SameBytes, SameOutcomes, ObjectsAgree, NoStrangers, AllTracked, Kept;
    RestoredAgrees(work, commit);
    TrackedReads(Restored(work, commit), commit);
    if !FilesAgree(work, commit) {
      var name :| name in work.files && name != HEAD && name in commit.files && work.files[name] != commit.files[name];
      assert ReadFile(Restored(work, commit), commit, name) == Some(work.files[name]);
    }
  }

  /** A staged object, a failed publication, a restoration to a base without the
      object, and a later restoration to a commit that holds it: the emptied
      directory hides the commit's copy, and the object cannot be read. */
  lemma EmptiedDirectoryHides(staged: Dir, path: string, base: Tree, tip: Tree)
    requires path !in base.objects
    requires path in tip.objects && ReadCommit(tip, path).Data?
    ensures
      var work := Tree(map[], map[path := staged]);
      var left := Restored(Restored(work, base), tip);
      && ReadObject(left, tip, path) == Broken
      && !SameBytes(left, tip)
  {
    hide DirOutcome, Whole;
    var work := Tree(map[], map[path := staged]);
    var first := Restored(work, base);
    assert first.objects[path] == map[];
    var left := Restored(first, tip);
    assert left.objects[path] == map[];
    EmptyIsNotWhole(NAMES);
    WholeMeansData(map[], NAMES);
    assert BytesOf(ReadObject(left, tip, path)) != BytesOf(ReadCommit(tip, path));
  }

  /** A copy repaired over a shorter committed one: the restoration removes the
      chunk the commit lacks, and reads equal the commit again. */
  lemma RepairedTailIsRemoved(path: string, first: Bytes, second: Bytes, commit: Tree)
    requires |first| == CHUNK && commit.objects == map[path := map[Name(0) := first]]
    ensures
      var work := Tree(map[], map[path := map[Name(0) := first, Name(1) := second]]);
      SameOutcomes(Restored(work, commit), commit)
  {
    hide Whole, DirOutcome, SameOutcomes, Name, Restored;
    var whole: Dir := map[Name(0) := first, Name(1) := second];
    var work := Tree(map[], map[path := whole]);
    NamesDiffer(0, 1);
    var committed: Dir := map[Name(0) := first];
    assert Kept(work, commit, path) == committed;
    SingleChunk(first, MAX_CHUNKS);
    assert ObjectAgrees(work, commit, path);
    RestoredReads(work, commit);
  }

  /** A copy repaired in place over a corrupt committed chunk survives a failed
      publication, although the base still holds the corrupt copy. */
  lemma RepairedCopySurvives(path: string, corrupt: Bytes, repaired: Bytes, commit: Tree)
    requires 0 < |corrupt| <= CHUNK && 0 < |repaired| <= CHUNK && corrupt != repaired
    requires commit.objects == map[path := map[Name(0) := corrupt]]
    ensures
      var work := Tree(map[], map[path := map[Name(0) := repaired]]);
      && ReadObject(Restored(work, commit), commit, path) == Data(repaired)
      && ReadCommit(commit, path) == Data(corrupt)
  {
    hide Whole, DirOutcome, Name;
    var work := Tree(map[], map[path := map[Name(0) := repaired]]);
    var left := Restored(work, commit);
    var mine, theirs: Dir := map[Name(0) := repaired], map[Name(0) := corrupt];
    assert left.objects[path] == mine;
    SingleChunk(repaired, NAMES);
    SingleChunk(corrupt, MAX_CHUNKS);
  }

  // ---------------------------------------------------------------------------
  // What a publication commits

  /** `stage_carrier_checkout` and `write-tree`: the files of the working tree
      over those of the index, chunk file by chunk file. */
  function Merged(index: Tree, work: Tree): Tree {
    Tree(index.files + work.files,
         map path | path in index.objects.Keys + work.objects.Keys && DirOf(index, path) + DirOf(work, path) != map[]
           :: DirOf(index, path) + DirOf(work, path))
  }

  /** Git tracks no empty directory. */
  predicate Committable(tree: Tree) {
    forall path <- tree.objects :: tree.objects[path] != map[]
  }

  /** The commit holds every file of the working tree, and of the index whatever
      the working tree does not replace. */
  lemma MergedHolds(index: Tree, work: Tree, path: string)
    ensures DirOf(Merged(index, work), path) == DirOf(index, path) + DirOf(work, path)
    ensures path in Merged(index, work).objects <==> DirOf(index, path) + DirOf(work, path) != map[]
  {
    var both := DirOf(index, path) + DirOf(work, path);
    if both != map[] {
      assert path in index.objects.Keys + work.objects.Keys;
    }
  }

  lemma MergedKeeps(index: Tree, work: Tree, path: string)
    requires Committable(index) && path !in work.objects
    ensures path in Merged(index, work).objects <==> path in index.objects
    ensures DirOf(Merged(index, work), path) == DirOf(index, path)
  {
    hide Merged;
    MergedHolds(index, work, path);
    assert DirOf(index, path) + map[] == DirOf(index, path);
  }

  lemma MergedIsCommittable(index: Tree, work: Tree)
    ensures Committable(Merged(index, work))
  {
  }

  /** After a publication the reads equal the new commit under the same exact
      condition. */
  lemma MergedReads(index: Tree, work: Tree)
    ensures SameBytes(work, Merged(index, work)) <==> ObjectsAgree(work, Merged(index, work))
    ensures SameOutcomes(work, Merged(index, work)) <==>
      ObjectsAgree(work, Merged(index, work)) && NoStrangers(work, Merged(index, work))
    ensures forall name :: ReadFile(work, Merged(index, work), name) == LookupFile(Merged(index, work), name)
  {
    hide SameBytes, SameOutcomes, ObjectsAgree, NoStrangers, Merged;
    forall path | path in work.objects
      ensures work.objects[path].Keys <= DirOf(Merged(index, work), path).Keys
    {
      MergedHolds(index, work, path);
    }
    TrackedReads(work, Merged(index, work));
    MergedFiles(index, work);
  }

  lemma MergedFiles(index: Tree, work: Tree)
    ensures forall name :: ReadFile(work, Merged(index, work), name) == LookupFile(Merged(index, work), name)
  {
  }

  /** Every object directory of the working tree is a whole object that the index
      does not hold yet: what staging leaves. */
  ghost predicate FreshlyStaged(index: Tree, work: Tree) {
    forall path <- work.objects :: path !in index.objects && Whole(work.objects[path], MAX_CHUNKS)
  }

  /** Then the published commit holds each staged object whole, and every read
      equals it. */
  lemma StagedReads(index: Tree, work: Tree)
    requires FreshlyStaged(index, work)
    ensures SameOutcomes(work, Merged(index, work))
    ensures forall path <- work.objects ::
      path in Merged(index, work).objects && ReadCommit(Merged(index, work), path).Data?
      && Merged(index, work).objects[path] == work.objects[path]
  {
    hide Whole, DirOutcome, SameOutcomes, Merged;
    var merged := Merged(index, work);
    forall path | path in work.objects
      ensures path in merged.objects && merged.objects[path] == work.objects[path] && ReadCommit(merged, path).Data?
      ensures Kept(work, merged, path) == merged.objects[path]
    {
      MergedHolds(index, work, path);
      assert map[] + work.objects[path] == work.objects[path];
      EmptyIsNotWhole(MAX_CHUNKS);
      WholeMeansData(work.objects[path], MAX_CHUNKS);
    }
    MergedReads(index, work);
  }

}
