/** Crash consistency of the directory backend: the object and HEAD publication
    of `FilesystemStorage` in src/storage.rs, over the durable files and
    directories of src/persist.rs. */
module Durability {
  import opened Prelude
  import opened Persist

  // ---------------------------------------------------------------------------
  // Storage

  /** Where storage lives, the text of each object, and the objects that a head
      ID needs: the manifests and packs of its chain. */
  datatype Layout = Layout(root: Path, text: Path -> string, needs: string -> set<Path>)

  const FORMAT_TEXT: string := "6"

  function AtRoot(lay: Layout, name: string): Path {
    lay.root + [name]
  }

  /** `object_path`: packs or manifests, two hex digits, the ID. */
  predicate ObjectPath(lay: Layout, p: Path) {
    && |p| == |lay.root| + 3
    && p[..|lay.root|] == lay.root
    && (p[|lay.root|] == "packs" || p[|lay.root|] == "manifests")
  }

  ghost predicate WellLaid(lay: Layout) {
    forall head, p :: p in lay.needs(head) ==> ObjectPath(lay, p)
  }

  /** A file directly in the storage root is not on the way to an object. */
  lemma RootFilesAside(lay: Layout, name: string, p: Path)
    requires ObjectPath(lay, p) && name != "packs" && name != "manifests"
    ensures !IsPrefix(AtRoot(lay, name), p)
    ensures p != AtRoot(lay, "HEAD")
  {
    var q := AtRoot(lay, name);
    var one := Parent(Parent(p));
    assert one[|lay.root|] == p[|lay.root|] && q[|lay.root|] == name;
    if IsPrefix(q, Parent(one)) {
      PrefixIsShorter(q, Parent(one));
    }
    assert !IsPrefix(q, one);
    assert !IsPrefix(q, Parent(p));
  }

  lemma SiblingsAside(lay: Layout, name: string, other: string)
    requires name != other
    ensures !IsPrefix(AtRoot(lay, name), AtRoot(lay, other))
  {
    var q, p := AtRoot(lay, name), AtRoot(lay, other);
    assert q[|lay.root|] == name && p[|lay.root|] == other;
    if IsPrefix(q, Parent(p)) {
      PrefixIsShorter(q, Parent(p));
    }
  }

  /** The objects of one head all survive, and FORMAT does. */
  ghost predicate Complete(s: DiskState, lay: Layout, head: string) {
    && FirmFile(s, AtRoot(lay, "FORMAT"), FORMAT_TEXT)
    && forall p :: p in lay.needs(head) ==> FirmFile(s, p, lay.text(p))
  }

  /** Whatever HEAD a crash leaves, it is wholly one of these IDs and names a
      complete storage. */
  ghost predicate HeadSafe(s: DiskState, lay: Layout, heads: set<string>) {
    forall v :: v in Possible(s, AtRoot(lay, "HEAD")) && v.Some? ==>
      exists head :: head in heads && HoldsText(s, v, head) && Complete(s, lay, head)
  }

  /** A touched name is harmless if it does not exist yet or is no way to
      anything the heads need. */
  ghost predicate Harmless(s: DiskState, lay: Layout, q: Path) {
    && q != AtRoot(lay, "HEAD")
    && (Now(s, q).None?
        || (!IsPrefix(q, AtRoot(lay, "FORMAT")) && forall p :: ObjectPath(lay, p) ==> !IsPrefix(q, p)))
  }

  lemma CompleteStays(s: DiskState, t: DiskState, touched: set<Path>, lay: Layout, head: string)
    requires WellLaid(lay) && Coherent(s) && Coherent(t) && Keeps(s, t, touched) && Complete(s, lay, head)
    requires forall q :: q in touched ==> q == AtRoot(lay, "HEAD") || Harmless(s, lay, q)
    ensures Complete(t, lay, head)
  {
    hide Keeps, Coherent, FirmFile, ObjectPath;
    var format := AtRoot(lay, "FORMAT");
    forall q | q in touched
      ensures !IsPrefix(q, format)
    {
      if q == AtRoot(lay, "HEAD") {
        SiblingsAside(lay, "HEAD", "FORMAT");
      } else if Now(s, q).None? {
        AbsentIsAside(s, q, format, FORMAT_TEXT);
      }
    }
    FirmFileStays(s, t, touched, format, FORMAT_TEXT);
    forall p | p in lay.needs(head)
      ensures FirmFile(t, p, lay.text(p))
    {
      ObjectStays(s, t, touched, lay, p);
    }
  }

  lemma ObjectStays(s: DiskState, t: DiskState, touched: set<Path>, lay: Layout, p: Path)
    requires ObjectPath(lay, p) && Coherent(s) && Coherent(t) && Keeps(s, t, touched) && FirmFile(s, p, lay.text(p))
    requires forall q :: q in touched ==> q == AtRoot(lay, "HEAD") || Harmless(s, lay, q)
    ensures FirmFile(t, p, lay.text(p))
  {
    hide Keeps, Coherent, FirmFile, ObjectPath;
    forall q | q in touched
      ensures !IsPrefix(q, p)
    {
      if q == AtRoot(lay, "HEAD") {
        RootFilesAside(lay, "HEAD", p);
      } else if Now(s, q).None? {
        AbsentIsAside(s, q, p, lay.text(p));
      }
    }
    FirmFileStays(s, t, touched, p, lay.text(p));
  }

  lemma TextStays(s: DiskState, t: DiskState, touched: set<Path>, v: Option<Node>, text: string)
    requires Keeps(s, t, touched) && HoldsText(s, v, text)
    ensures HoldsText(t, v, text)
  {
  }

  lemma HeadSafeStays(s: DiskState, t: DiskState, touched: set<Path>, lay: Layout, heads: set<string>)
    requires WellLaid(lay) && Coherent(s) && Coherent(t) && Keeps(s, t, touched) && HeadSafe(s, lay, heads)
    requires forall q :: q in touched ==> Harmless(s, lay, q)
    ensures HeadSafe(t, lay, heads)
  {
    hide Coherent, Complete, HoldsText, Harmless, WellLaid;
    var path := AtRoot(lay, "HEAD");
    HarmlessIsNotHead(s, lay, touched);
    forall v | v in Possible(t, path) && v.Some?
      ensures exists head :: head in heads && HoldsText(t, v, head) && Complete(t, lay, head)
    {
      var head :| head in heads && HoldsText(s, v, head) && Complete(s, lay, head);
      TextStays(s, t, touched, v, head);
      CompleteStays(s, t, touched, lay, head);
    }
  }

  lemma HarmlessIsNotHead(s: DiskState, lay: Layout, touched: set<Path>)
    requires forall q :: q in touched ==> Harmless(s, lay, q)
    ensures AtRoot(lay, "HEAD") !in touched
  {
  }

  // ---------------------------------------------------------------------------
  // What holds at every moment

  /** Files in object directories were flushed before they got their name. */
  ghost predicate FilesFlushed(s: DiskState, lay: Layout) {
    forall p, i :: ObjectPath(lay, p) && Now(s, p) == Some(File(i)) ==> i in s.flushed && i in s.contents
  }

  ghost predicate Tidy(s: DiskState, lay: Layout) {
    Coherent(s) && FilesFlushed(s, lay)
  }

  /** While there is no HEAD, a crash leaves none. */
  ghost predicate HeadSettled(s: DiskState, lay: Layout) {
    Now(s, AtRoot(lay, "HEAD")).None? ==> Possible(s, AtRoot(lay, "HEAD")) == {None}
  }

  /** No directory takes the place of a file in the storage root. */
  ghost predicate Plain(s: DiskState, lay: Layout) {
    && Some(Dir) !in Possible(s, AtRoot(lay, "FORMAT"))
    && Some(Dir) !in Possible(s, AtRoot(lay, "README.md"))
  }

  /** The invariant of the storage, at every moment between two file system calls. */
  ghost predicate Sound(s: DiskState, lay: Layout, heads: set<string>) {
    Tidy(s, lay) && HeadSafe(s, lay, heads) && HeadSettled(s, lay) && Plain(s, lay)
  }

  /** Every state since a point in the trace is sound. */
  ghost predicate AlwaysSound(trace: seq<DiskState>, from: nat, lay: Layout, heads: set<string>) {
    forall i :: from <= i < |trace| ==> Sound(trace[i], lay, heads)
  }

  lemma SoundStays(s: DiskState, t: DiskState, touched: set<Path>, lay: Layout, heads: set<string>)
    requires WellLaid(lay) && Sound(s, lay, heads) && Tidy(t, lay) && Keeps(s, t, touched)
    requires forall q :: q in touched ==> Harmless(s, lay, q)
    requires AtRoot(lay, "FORMAT") !in touched && AtRoot(lay, "README.md") !in touched
    ensures Sound(t, lay, heads)
  {
    hide Coherent, FilesFlushed, HeadSafe, Harmless, WellLaid, Possible, Now;
    HeadSafeStays(s, t, touched, lay, heads);
    HarmlessIsNotHead(s, lay, touched);
    KeepsNames(s, t, touched, AtRoot(lay, "HEAD"));
    StillPossible(t, AtRoot(lay, "HEAD"));
    KeepsNames(s, t, touched, AtRoot(lay, "FORMAT"));
    KeepsNames(s, t, touched, AtRoot(lay, "README.md"));
  }

  /** A stretch of the trace that is tidy throughout. */
  ghost predicate TidyTrace(trace: seq<DiskState>, from: nat, s: DiskState, touched: set<Path>, lay: Layout) {
    Traced(trace, from, s, touched) && forall i :: from <= i < |trace| ==> FilesFlushed(trace[i], lay)
  }

  lemma TracedIsSound(
    trace: seq<DiskState>, from: nat, s: DiskState, touched: set<Path>, lay: Layout, heads: set<string>)
    requires WellLaid(lay) && Sound(s, lay, heads) && TidyTrace(trace, from, s, touched, lay)
    requires forall q :: q in touched ==> Harmless(s, lay, q)
    requires AtRoot(lay, "FORMAT") !in touched && AtRoot(lay, "README.md") !in touched
    ensures AlwaysSound(trace, from, lay, heads)
  {
    hide Keeps, Coherent, FilesFlushed, Sound, Harmless, WellLaid;
    forall i | from <= i < |trace|
      ensures Sound(trace[i], lay, heads)
    {
      SoundStays(s, trace[i], touched, lay, heads);
    }
  }

  // ---------------------------------------------------------------------------
  // After a crash

  /** If a crash leaves a HEAD at all, it holds one of the expected IDs, FORMAT
      is beside it, and every object of that head's chain is there, intact. */
  lemma CrashLeavesCompleteHead(s: DiskState, view: map<Path, Seen>, lay: Layout, heads: set<string>)
    requires HeadSafe(s, lay, heads) && AfterCrash(s, view)
    requires AtRoot(lay, "HEAD") in view
    ensures exists head :: head in heads && SurvivesWith(view, lay, head)
  {
    hide FirmFile;
    var path := AtRoot(lay, "HEAD");
    var v :| v in Possible(s, path) && v.Some? && SeenAs(s, v.value, view[path]);
    var head :| head in heads && HoldsText(s, v, head) && Complete(s, lay, head);
    FirmFileSurvives(s, view, AtRoot(lay, "FORMAT"), FORMAT_TEXT);
    forall p | p in lay.needs(head)
      ensures p in view && view[p] == SeenFile(lay.text(p))
    {
      FirmFileSurvives(s, view, p, lay.text(p));
    }
    assert SurvivesWith(view, lay, head);
  }

  ghost predicate SurvivesWith(view: map<Path, Seen>, lay: Layout, head: string) {
    && AtRoot(lay, "HEAD") in view && view[AtRoot(lay, "HEAD")] == SeenFile(head)
    && AtRoot(lay, "FORMAT") in view && view[AtRoot(lay, "FORMAT")] == SeenFile(FORMAT_TEXT)
    && forall p :: p in lay.needs(head) ==> p in view && view[p] == SeenFile(lay.text(p))
  }

  // ---------------------------------------------------------------------------
  // Storing an object

  function Staging(lay: Layout): Path {
    AtRoot(lay, ".staging")
  }

  /** The names that storing an object may touch: missing directories, the
      staging directory, the temporary, and a target that does not exist. */
  ghost function Touches(s: DiskState, lay: Layout, target: Path, temp: Path): set<Path>
    requires target != []
  {
    Missing(s, AtRoot(lay, "packs")) + Missing(s, AtRoot(lay, "manifests")) + Missing(s, Parent(target))
    + {Staging(lay), temp} + (if Now(s, target).None? then {target} else {})
  }

  lemma MissingLater(s: DiskState, t: DiskState, touched: set<Path>, path: Path)
    requires Keeps(s, t, touched) && Missing(s, path) <= touched
    ensures Missing(t, path) <= touched
  {
    forall q | q in Missing(t, path)
      ensures q in touched
    {
      var k :| 0 < k <= |path| && Now(t, path[..k]).None? && q == path[..k];
      assert Now(s, q).None? ==> q in Missing(s, path);
    }
  }

  lemma MissingIsAbsent(s: DiskState, path: Path, q: Path)
    requires q in Missing(s, path)
    ensures Now(s, q).None? && 0 < |q| <= |path| && q == path[..|q|]
  {
  }

  lemma MissingSharesNames(s: DiskState, path: Path, q: Path, k: nat)
    requires q in Missing(s, path) && k < |q|
    ensures k < |path| && q[k] == path[k]
  {
    MissingIsAbsent(s, path, q);
  }

  lemma PrefixIsNotHead(lay: Layout, path: Path, q: Path)
    requires |q| <= |path| && q == path[..|q|]
    requires |path| > |lay.root| && path[|lay.root|] != "HEAD"
    ensures q != AtRoot(lay, "HEAD")
  {
    if |q| > |lay.root| {
      assert q[|lay.root|] == path[|lay.root|];
    }
  }

  /** Nothing that storing an object touches is on the way to what a head needs. */
  lemma TouchesHarmless(s: DiskState, lay: Layout, target: Path, temp: Path, q: Path)
    requires ObjectPath(lay, target) && Now(s, temp).None? && temp != AtRoot(lay, "HEAD")
    requires q in Touches(s, lay, target, temp)
    ensures Harmless(s, lay, q)
  {
    hide IsPrefix, Missing;
    var head := AtRoot(lay, "HEAD");
    assert head[|lay.root|] == "HEAD" && Staging(lay)[|lay.root|] == ".staging";
    if q == Staging(lay) {
      SiblingsAside(lay, ".staging", "FORMAT");
      forall p | ObjectPath(lay, p)
        ensures !IsPrefix(q, p)
      {
        RootFilesAside(lay, ".staging", p);
      }
    } else if q in Missing(s, AtRoot(lay, "packs")) {
      MissingIsAbsent(s, AtRoot(lay, "packs"), q);
      PrefixIsNotHead(lay, AtRoot(lay, "packs"), q);
    } else if q in Missing(s, AtRoot(lay, "manifests")) {
      MissingIsAbsent(s, AtRoot(lay, "manifests"), q);
      PrefixIsNotHead(lay, AtRoot(lay, "manifests"), q);
    } else if q in Missing(s, Parent(target)) {
      MissingIsAbsent(s, Parent(target), q);
      PrefixIsNotHead(lay, Parent(target), q);
    }
  }

  lemma FilesFlushedStay(s: DiskState, t: DiskState, touched: set<Path>, lay: Layout)
    requires FilesFlushed(s, lay) && Keeps(s, t, touched)
    requires forall q, i :: q in touched && ObjectPath(lay, q) && Now(t, q) == Some(File(i)) ==>
      i in t.flushed && i in t.contents
    ensures FilesFlushed(t, lay)
  {
    forall p, i | ObjectPath(lay, p) && Now(t, p) == Some(File(i))
      ensures i in t.flushed && i in t.contents
    {
      if p !in touched {
        assert Now(s, p) == Some(File(i));
      }
    }
  }

  /** The directories that hold objects, or hold those. */
  predicate ObjectDir(lay: Layout, path: Path) {
    || path == AtRoot(lay, "packs") || path == AtRoot(lay, "manifests")
    || (|path| == |lay.root| + 2 && path[..|lay.root|] == lay.root && path[|lay.root|] in {"packs", "manifests"})
  }

  /** Neither the staging directory nor anything in it is above an object. */
  lemma StagingAside(lay: Layout, path: Path, temp: Path, k: nat)
    requires ObjectDir(lay, path) && k <= |path| && |temp| == |lay.root| + 2 && Parent(temp) == Staging(lay)
    ensures path[..k] != Staging(lay) && path[..k] != temp
  {
    assert Staging(lay)[|lay.root|] == ".staging" && temp[|lay.root|] == Parent(temp)[|lay.root|];
    if k > |lay.root| {
      assert path[..k][|lay.root|] == path[|lay.root|];
    }
  }

  lemma MissingHoldsNoFile(s: DiskState, t: DiskState, lay: Layout, path: Path)
    requires Keeps(s, t, Missing(s, path)) && |path| <= |lay.root| + 2 && FilesFlushed(s, lay)
    ensures FilesFlushed(t, lay)
  {
    hide Missing;
    forall q | q in Missing(s, path)
      ensures !ObjectPath(lay, q)
    {
      MissingIsAbsent(s, path, q);
    }
    FilesFlushedStay(s, t, Missing(s, path), lay);
  }

  lemma MissingLeavesDirs(s: DiskState, t: DiskState, path: Path)
    requires Keeps(s, t, Missing(s, path))
    ensures DirsStay(s, t)
  {
    hide Missing;
    forall d | Now(s, d) == Some(Dir)
      ensures Now(t, d) == Some(Dir)
    {
      if d in Missing(s, path) {
        MissingIsAbsent(s, path, d);
      }
    }
  }

  /** Another file, or a directory, has the object's name. */
  ghost predicate Taken(s: DiskState, p: Path, text: string) {
    Now(s, p).Some? && !(Now(s, p).value.File? && Now(s, p).value.inode in s.contents
                         && s.contents[Now(s, p).value.inode] == text)
  }

  /** Something stands in the way of storing the object. */
  ghost predicate Obstructed(s: DiskState, lay: Layout, target: Path, text: string) {
    || Blocked(s, AtRoot(lay, "packs")) || Blocked(s, AtRoot(lay, "manifests"))
    || (target != [] && Blocked(s, Parent(target)))
    || IsFileAt(s, Staging(lay)) || Taken(s, target, text)
  }

  lemma BlockedSame(s: DiskState, t: DiskState, touched: set<Path>, path: Path)
    requires Keeps(s, t, touched)
    requires forall k: nat :: k <= |path| && path[..k] in touched ==> !IsFileAt(s, path[..k]) && !IsFileAt(t, path[..k])
    ensures Blocked(s, path) <==> Blocked(t, path)
  {
    forall k: nat | k <= |path|
      ensures IsFileAt(s, path[..k]) <==> IsFileAt(t, path[..k])
    {
      if path[..k] !in touched {
        KeepsNames(s, t, touched, path[..k]);
      }
    }
  }

  lemma TakenSame(s: DiskState, t: DiskState, touched: set<Path>, lay: Layout, p: Path, text: string)
    requires Keeps(s, t, touched) && ObjectPath(lay, p) && FilesFlushed(s, lay) && p !in touched
    ensures Taken(s, p, text) <==> Taken(t, p, text)
  {
  }

  lemma PrefixExists(s: DiskState, path: Path, k: nat)
    requires Coherent(s) && Now(s, path) == Some(Dir) && k <= |path|
    ensures Now(s, path[..k]) == Some(Dir)
  {
    assert path[..|path|] == path;
    AboveExists(s, path, |path|, k);
  }

  /** Making one directory path changes nothing about the other obstructions. */
  lemma DirectoryStepAside(s: DiskState, t: DiskState, lay: Layout, path: Path, other: Path, target: Path, text: string)
    requires Coherent(t) && FilesFlushed(s, lay) && ObjectPath(lay, target) && ObjectDir(lay, path)
    requires Keeps(s, t, Missing(s, path)) && Now(t, path) == Some(Dir)
    ensures Blocked(s, other) <==> Blocked(t, other)
    ensures IsFileAt(s, Staging(lay)) <==> IsFileAt(t, Staging(lay))
    ensures Taken(s, target, text) <==> Taken(t, target, text)
  {
    hide Missing, Coherent, Keeps, Taken, Blocked, FilesFlushed;
    var touched := Missing(s, path);
    forall q | q in touched
      ensures !IsFileAt(s, q) && !IsFileAt(t, q) && |q| <= |lay.root| + 2
    {
      MissingIsAbsent(s, path, q);
      PrefixExists(t, path, |q|);
    }
    BlockedSame(s, t, touched, other);
    TakenSame(s, t, touched, lay, target, text);
    if Staging(lay) !in touched {
      KeepsNames(s, t, touched, Staging(lay));
    }
  }

  lemma TracedFlushed(trace: seq<DiskState>, from: nat, s: DiskState, path: Path, lay: Layout)
    requires Traced(trace, from, s, Missing(s, path)) && |path| <= |lay.root| + 2 && FilesFlushed(s, lay)
    ensures forall i :: from <= i < |trace| ==> FilesFlushed(trace[i], lay)
  {
    hide Keeps, Coherent, FilesFlushed, Missing;
    forall i | from <= i < |trace|
      ensures FilesFlushed(trace[i], lay)
    {
      MissingHoldsNoFile(s, trace[i], lay, path);
    }
  }

  lemma TidyJoin(
    trace: seq<DiskState>, before: seq<DiskState>, from: nat, s: DiskState, t: DiskState, touched: set<Path>, lay: Layout)
    requires before <= trace && TidyTrace(before, from, s, touched, lay) && Keeps(s, t, touched)
    requires TidyTrace(trace, |before|, t, touched, lay)
    ensures TidyTrace(trace, from, s, touched, lay)
  {
    hide Keeps, Coherent, FilesFlushed;
    assert trace[..|before|] == before;
    TracedJoin(trace, from, |before|, s, t, touched);
    forall i | from <= i < |trace|
      ensures FilesFlushed(trace[i], lay)
    {
      if i < |before| {
        assert trace[i] == before[i];
      }
    }
  }

  /** One durable directory creation. */
  method MakeDirectory(disk: Disk, ghost lay: Layout, path: Path, ghost s0: DiskState, ghost from: nat, ghost touched: set<Path>)
    returns (r: Result<()>)
    requires Tidy(disk.s, lay) && Keeps(s0, disk.s, touched) && TidyTrace(disk.trace, from, s0, touched, lay)
    requires Missing(s0, path) <= touched && ObjectDir(lay, path)
    modifies disk
    ensures old(disk.trace) <= disk.trace
    ensures Tidy(disk.s, lay) && Keeps(s0, disk.s, touched) && TidyTrace(disk.trace, from, s0, touched, lay)
    ensures Keeps(old(disk.s), disk.s, Missing(old(disk.s), path)) && DirsStay(old(disk.s), disk.s)
    ensures r.Err? <==> Blocked(old(disk.s), path)
    ensures r.Ok? ==> Now(disk.s, path) == Some(Dir)
    ensures r.Ok? ==> (FirmDirs(disk.s, path) <==> FirmAbove(old(disk.s), path))
    ensures r.Ok? ==> NoNewLoose(old(disk.s), disk.s) && Settled(disk.s, Extended(old(disk.s), path))
    ensures r.Ok? ==> StaysLoose(old(disk.s), disk.s, Extended(old(disk.s), path))
  {
    hide Coherent, Keeps, FilesFlushed, FirmDirs, Missing, Blocked, DirsStay, Loose, FirmAbove, NoNewLoose, Settled,
      StaysLoose, Extended;
    ghost var s := disk.s;
    MissingLater(s0, s, touched, path);
    ghost var before := disk.trace;
    r := CreateDirAllDurable(disk, path);
    MissingHoldsNoFile(s, disk.s, lay, path);
    MissingLeavesDirs(s, disk.s, path);
    TracedFlushed(disk.trace, |before|, s, path, lay);
    TracedMore(disk.trace, |before|, s, Missing(s, path), touched);
    TidyJoin(disk.trace, before, from, s0, s, touched, lay);
    KeepsMore(s, disk.s, Missing(s, path), touched);
    KeepsTransitive(s0, s, disk.s, touched);
  }

  /** One file system call that keeps within the touched names. */
  method Call(
    disk: Disk, next: DiskState, ghost step: set<Path>, ghost s0: DiskState, ghost from: nat, ghost touched: set<Path>,
    ghost lay: Layout)
    requires Tidy(next, lay) && Keeps(disk.s, next, step) && step <= touched
    requires Keeps(s0, disk.s, touched) && TidyTrace(disk.trace, from, s0, touched, lay)
    modifies disk
    ensures disk.s == next && disk.trace == old(disk.trace) + [next]
    ensures Keeps(s0, next, touched) && TidyTrace(disk.trace, from, s0, touched, lay)
  {
    hide Coherent, Keeps, FilesFlushed;
    ExtendKeeps(s0, disk.s, next, step, touched);
    disk.Do(next);
  }

  /** Every loose directory above the object is `packs` or `manifests` itself, and
      the flush of the storage root that comes with creating the other one will
      settle it. */
  ghost predicate Anchored(s: DiskState, lay: Layout, target: Path)
    requires target != []
  {
    forall k :: 0 < k < |target| && Loose(s, target[..k]) ==>
      k == |lay.root| + 1 && (Now(s, AtRoot(lay, "packs")).None? || Now(s, AtRoot(lay, "manifests")).None?)
  }

  /** `begin_object`, the writes and `publish` of the directory backend: stage
      and flush the file, make its directory, then link it into place and flush
      that directory, or check the copy that is there. Afterwards the object
      survives every crash if and only if the existing directories above it did
      or are settled on the way. */
  method StoreObject(disk: Disk, lay: Layout, target: Path, text: string, temporary: string)
    returns (r: Result<()>)
    requires Tidy(disk.s, lay) && ObjectPath(lay, target)
    requires Now(disk.s, Staging(lay) + [temporary]).None?
    modifies disk
    ensures old(disk.trace) <= disk.trace
    ensures
      var touched := Touches(old(disk.s), lay, target, Staging(lay) + [temporary]);
      TidyTrace(disk.trace, |old(disk.trace)|, old(disk.s), touched, lay) && Keeps(old(disk.s), disk.s, touched)
    ensures Tidy(disk.s, lay)
    ensures r.Err? <==> Obstructed(old(disk.s), lay, target, text)
    ensures r.Ok? ==> Holding(disk.s, target, text) && Furnished(disk.s, lay)
    ensures r.Ok? ==> (FirmFile(disk.s, target, text) <==> Anchored(old(disk.s), lay, target))
    ensures r.Ok? ==> OnlyStagingLoose(old(disk.s), disk.s, lay)
  {
    hide Coherent, Keeps, FilesFlushed, FirmDirs, Missing, Possible, Now, Create, Bind, WriteFile, SyncFile, SyncDir,
      FirmFile, HoldsText, Blocked, Taken, IsFileAt, DirsStay, Loose, FirmAbove, NoNewLoose, Settled, StaysLoose, Extended,
      Anchored, Holding, OnlyStagingLoose, Grows;
    var temp := Staging(lay) + [temporary];
    ghost var s0 := disk.s;
    ghost var touched := Touches(s0, lay, target, temp);
    ghost var from := |disk.trace|;
    KeepsItself(s0, touched);
    r := MakeDirectory(disk, lay, AtRoot(lay, "packs"), s0, from, touched);
    if r.Err? {
      return;
    }
    ghost var s1 := disk.s;
    LongerStaysAbsent(s0, s1, AtRoot(lay, "packs"), temp);
    DirectoryStepAside(s0, s1, lay, AtRoot(lay, "packs"), AtRoot(lay, "manifests"), target, text);
    DirectoryStepAside(s0, s1, lay, AtRoot(lay, "packs"), Parent(target), target, text);
    r := MakeDirectory(disk, lay, AtRoot(lay, "manifests"), s0, from, touched);
    if r.Err? {
      return;
    }
    ghost var s2 := disk.s;
    LongerStaysAbsent(s1, s2, AtRoot(lay, "manifests"), temp);
    DirectoryStepAside(s1, s2, lay, AtRoot(lay, "manifests"), Parent(target), target, text);
    AnchoredByRoot(s0, s1, s2, lay, target);
    RootExists(s2, lay);
    r := Stage(disk, lay, target, text, temp, s0, from);
    if r.Err? {
      return;
    }
    ghost var staged := disk.s;
    ParentIsPlain(lay, target);
    StageStepAside(s2, staged, lay, target, temp, text);
    StageLoosensNothing(s2, staged, lay, target, temp);
    r := MakeDirectory(disk, lay, Parent(target), s0, from, touched);
    if r.Err? {
      return;
    }
    ghost var s4 := disk.s;
    TempStays(staged, s4, lay, target, temp, text);
    DirectoryStepAside(staged, s4, lay, Parent(target), Parent(target), target, text);
    r := LinkInto(disk, lay, target, text, temp, s0, from);
    if r.Ok? {
      StoredFirmly(s4, disk.s, lay, target, text);
      StillFurnished(s1, s2, staged, s4, disk.s, lay);
      LooseChain(s0, s1, s2, staged, s4, disk.s, lay);
    }
  }

  /** A loose directory was loose before, or it is the staging directory. */
  ghost predicate OnlyStagingLoose(s: DiskState, t: DiskState, lay: Layout) {
    forall d :: Loose(t, d) ==> Loose(s, d) || d == Staging(lay)
  }

  lemma LooseChain(s0: DiskState, s1: DiskState, s2: DiskState, s3: DiskState, s4: DiskState, t: DiskState, lay: Layout)
    requires NoNewLoose(s0, s1) && NoNewLoose(s1, s2) && OnlyStagingLoose(s2, s3, lay) && NoNewLoose(s3, s4)
    requires NoNewLoose(s4, t)
    ensures OnlyStagingLoose(s0, t, lay)
  {
    hide Loose;
  }

  /** The three directories of a storage that has stored an object. */
  ghost predicate Furnished(s: DiskState, lay: Layout) {
    && Now(s, AtRoot(lay, "packs")) == Some(Dir) && Now(s, AtRoot(lay, "manifests")) == Some(Dir)
    && Now(s, Staging(lay)) == Some(Dir)
  }

  lemma StillFurnished(s1: DiskState, s2: DiskState, s3: DiskState, s4: DiskState, t: DiskState, lay: Layout)
    requires Now(s1, AtRoot(lay, "packs")) == Some(Dir) && Now(s2, AtRoot(lay, "manifests")) == Some(Dir)
    requires Now(s3, Staging(lay)) == Some(Dir)
    requires DirsStay(s1, s2) && DirsStay(s2, s3) && DirsStay(s3, s4) && DirsStay(s4, t)
    ensures Furnished(t, lay)
  {
  }

  lemma RootExists(s: DiskState, lay: Layout)
    requires Coherent(s) && Now(s, AtRoot(lay, "manifests")) == Some(Dir)
    ensures Now(s, lay.root) == Some(Dir)
  {
    assert Parent(AtRoot(lay, "manifests")) == lay.root;
  }

  lemma IsExtended(s: DiskState, path: Path, q: Path)
    requires q in Extended(s, path)
    ensures |q| < |path| && q == path[..|q|] && Now(s, path[..|q| + 1]).None?
  {
    var m :| m in Missing(s, path) && m != [] && q == Parent(m);
    MissingIsAbsent(s, path, m);
    assert path[..|q| + 1] == m;
  }

  lemma NotExtended(s: DiskState, path: Path, q: Path)
    requires |q| < |path| ==> Now(s, path[..|q| + 1]).Some?
    ensures q !in Extended(s, path)
  {
    hide Extended;
    if q in Extended(s, path) {
      IsExtended(s, path, q);
    }
  }

  lemma ExtendsRoot(s: DiskState, lay: Layout, name: string)
    requires Now(s, AtRoot(lay, name)).None?
    ensures lay.root in Extended(s, AtRoot(lay, name))
  {
    var m := AtRoot(lay, name);
    assert m == m[..|m|];
    assert m in Missing(s, m) && Parent(m) == lay.root;
  }

  /** What the two root directories do to the directories above an object. */
  lemma AnchoredByRoot(s0: DiskState, s1: DiskState, s2: DiskState, lay: Layout, target: Path)
    requires Coherent(s0) && Coherent(s1) && Coherent(s2) && ObjectPath(lay, target)
    requires Now(s1, AtRoot(lay, "packs")) == Some(Dir)
    requires Keeps(s0, s1, Missing(s0, AtRoot(lay, "packs")))
    requires NoNewLoose(s0, s1) && Settled(s1, Extended(s0, AtRoot(lay, "packs")))
    requires StaysLoose(s0, s1, Extended(s0, AtRoot(lay, "packs")))
    requires NoNewLoose(s1, s2) && Settled(s2, Extended(s1, AtRoot(lay, "manifests")))
    requires StaysLoose(s1, s2, Extended(s1, AtRoot(lay, "manifests")))
    ensures FirmAbove(s2, Parent(target)) <==> Anchored(s0, lay, target)
  {
    hide Coherent, Keeps, Missing, Extended, Loose, NoNewLoose, Settled, StaysLoose;
    var path := Parent(target);
    forall k | 0 < k <= |path|
      ensures Loose(s2, path[..k]) <==>
        Loose(s0, path[..k])
        && !(k == |lay.root| + 1 && (Now(s0, AtRoot(lay, "packs")).None? || Now(s0, AtRoot(lay, "manifests")).None?))
    {
      if k == |lay.root| + 1 {
        KindLoose(s0, s1, s2, lay, path[..k]);
      } else {
        OtherLoose(s0, s1, s2, lay, path, k);
      }
    }
    forall k | 0 < k < |target|
      ensures target[..k] == path[..k]
    {
    }
    assert path[..0] == [] && !Loose(s2, []) by {
      RootIsNotLoose(s2);
    }
  }

  lemma RootIsNotLoose(s: DiskState)
    ensures !Loose(s, [])
  {
  }

  /** `packs` and `manifests` stay loose exactly if neither is created. */
  lemma KindLoose(s0: DiskState, s1: DiskState, s2: DiskState, lay: Layout, d: Path)
    requires Coherent(s0) && Coherent(s1) && |d| == |lay.root| + 1 && d[..|lay.root|] == lay.root
    requires Now(s1, AtRoot(lay, "packs")) == Some(Dir)
    requires Keeps(s0, s1, Missing(s0, AtRoot(lay, "packs")))
    requires NoNewLoose(s0, s1) && Settled(s1, Extended(s0, AtRoot(lay, "packs")))
    requires StaysLoose(s0, s1, Extended(s0, AtRoot(lay, "packs")))
    requires NoNewLoose(s1, s2) && Settled(s2, Extended(s1, AtRoot(lay, "manifests")))
    requires StaysLoose(s1, s2, Extended(s1, AtRoot(lay, "manifests")))
    ensures Loose(s2, d) <==>
      Loose(s0, d) && Now(s0, AtRoot(lay, "packs")).Some? && Now(s0, AtRoot(lay, "manifests")).Some?
  {
    hide Coherent, Keeps, Missing, Extended, Possible;
    var packs, manifests := AtRoot(lay, "packs"), AtRoot(lay, "manifests");
    assert Parent(d) == lay.root;
    if Now(s0, packs).None? {
      ExtendsRoot(s0, lay, "packs");
      assert Possible(s1, d) == {Now(s1, d)};
    } else {
      assert packs[|lay.root|] == "packs" && manifests[|lay.root|] == "manifests";
      NotMissing(s0, s1, lay, manifests);
      if Now(s0, manifests).None? {
        ExtendsRoot(s1, lay, "manifests");
        assert Possible(s2, d) == {Now(s2, d)};
      } else if Loose(s0, d) {
        assert packs[..|lay.root| + 1] == packs && manifests[..|lay.root| + 1] == manifests;
        NotExtended(s0, packs, lay.root);
        NotExtended(s1, manifests, lay.root);
      }
    }
  }

  lemma NotMissing(s: DiskState, t: DiskState, lay: Layout, p: Path)
    requires Keeps(s, t, Missing(s, AtRoot(lay, "packs"))) && |p| == |lay.root| + 1 && p != AtRoot(lay, "packs")
    ensures Now(t, p) == Now(s, p)
  {
    hide Missing;
    if p in Missing(s, AtRoot(lay, "packs")) {
      MissingIsAbsent(s, AtRoot(lay, "packs"), p);
    }
  }

  /** The other directories above an object stay as loose as they were. */
  lemma OtherLoose(s0: DiskState, s1: DiskState, s2: DiskState, lay: Layout, path: Path, k: nat)
    requires Coherent(s1) && 0 < k <= |path| && k != |lay.root| + 1
    requires |path| == |lay.root| + 2 && path[..|lay.root|] == lay.root
    requires Now(s1, AtRoot(lay, "packs")) == Some(Dir)
    requires NoNewLoose(s0, s1) && StaysLoose(s0, s1, Extended(s0, AtRoot(lay, "packs")))
    requires NoNewLoose(s1, s2) && StaysLoose(s1, s2, Extended(s1, AtRoot(lay, "manifests")))
    ensures Loose(s2, path[..k]) <==> Loose(s0, path[..k])
  {
    hide Coherent, Extended, Possible;
    var d := path[..k];
    var above := Parent(d);
    var packs, manifests := AtRoot(lay, "packs"), AtRoot(lay, "manifests");
    if Loose(s0, d) {
      assert k <= |lay.root| ==> packs[..k] == path[..|lay.root|][..k] == d && manifests[..k] == d;
      NotExtended(s0, packs, above);
      assert Loose(s1, d);
      NotExtended(s1, manifests, above);
    }
  }

  /** Staging changes nothing about the other obstructions. */
  lemma StageStepAside(s: DiskState, t: DiskState, lay: Layout, target: Path, temp: Path, text: string)
    requires ObjectPath(lay, target) && FilesFlushed(s, lay) && Keeps(s, t, {Staging(lay), temp})
    requires |temp| == |lay.root| + 2 && Parent(temp) == Staging(lay)
    ensures Blocked(s, Parent(target)) <==> Blocked(t, Parent(target))
    ensures Taken(s, target, text) <==> Taken(t, target, text)
  {
    hide Keeps, Taken, FilesFlushed, Blocked;
    var path := Parent(target);
    ParentIsPlain(lay, target);
    forall k: nat | k <= |path|
      ensures path[..k] != Staging(lay) && path[..k] != temp
    {
      StagingAside(lay, path, temp, k);
    }
    BlockedSame(s, t, {Staging(lay), temp}, path);
    TakenSame(s, t, {Staging(lay), temp}, lay, target, text);
  }

  /** Staging flushes no directory and touches none above the object. */
  lemma StageLoosensNothing(s: DiskState, t: DiskState, lay: Layout, target: Path, temp: Path)
    requires Coherent(s) && Coherent(t) && ObjectPath(lay, target) && Keeps(s, t, {Staging(lay), temp})
    requires |temp| == |lay.root| + 2 && Parent(temp) == Staging(lay) && Now(t, temp) != Some(Dir)
    requires Grows(s, t) && DirsStay(s, t)
    ensures FirmAbove(t, Parent(target)) <==> FirmAbove(s, Parent(target))
    ensures OnlyStagingLoose(s, t, lay)
  {
    hide Coherent, FirmAbove, Grows, DirsStay, StaysLoose, Keeps;
    var path := Parent(target);
    ParentIsPlain(lay, target);
    GrowsStaysLoose(s, t);
    forall k | 0 < k <= |path|
      ensures path[..k] !in {Staging(lay), temp}
    {
      StagingAside(lay, path, temp, k);
    }
    SameLoose(s, t, {Staging(lay), temp}, {}, path);
    forall d | Loose(t, d) && d != Staging(lay)
      ensures Loose(s, d)
    {
      KeepsNames(s, t, {Staging(lay), temp}, d);
      StillPossible(s, d);
      StillPossible(t, d);
    }
  }

  lemma ParentIsPlain(lay: Layout, target: Path)
    requires ObjectPath(lay, target)
    ensures ObjectDir(lay, Parent(target)) && |Parent(target)| == |lay.root| + 2
    ensures forall k :: 0 <= k <= |Parent(target)| ==> Parent(target)[..k] != target
  {
  }

  lemma LongerStaysAbsent(s: DiskState, t: DiskState, path: Path, temp: Path)
    requires Keeps(s, t, Missing(s, path)) && |temp| > |path| && Now(s, temp).None?
    ensures Now(t, temp).None?
  {
    hide Missing;
    if temp in Missing(s, path) {
      MissingIsAbsent(s, path, temp);
    }
  }

  /** The file exists and holds the flushed text. */
  ghost predicate Holding(s: DiskState, p: Path, text: string) {
    Now(s, p).Some? && HoldsText(s, Now(s, p), text)
  }

  lemma TempStays(s: DiskState, t: DiskState, lay: Layout, target: Path, temp: Path, text: string)
    requires target != [] && Holding(s, temp, text) && Keeps(s, t, Missing(s, Parent(target)))
    ensures Holding(t, temp, text)
  {
    hide Missing;
    if temp in Missing(s, Parent(target)) {
      MissingIsAbsent(s, Parent(target), temp);
    }
    TextStays(s, t, Missing(s, Parent(target)), Now(s, temp), text);
  }

  /** The file is settled, so it survives exactly if its directory does. */
  lemma StoredFirmly(s: DiskState, t: DiskState, lay: Layout, target: Path, text: string)
    requires Coherent(s) && Coherent(t) && ObjectPath(lay, target)
    requires Now(s, Parent(target)) == Some(Dir) && DirsStay(s, t)
    requires Holding(t, target, text) && Possible(t, target) == {Now(t, target)}
    requires NoNewLoose(s, t) && StaysLoose(s, t, {Parent(target)})
    ensures FirmFile(t, target, text) <==> FirmDirs(s, Parent(target))
  {
    hide Coherent, FirmDirs, Possible;
    var path := Parent(target);
    FirmIffNoneLoose(s, path);
    FirmIffNoneLoose(t, path);
    forall k | 0 <= k <= |path|
      ensures Loose(t, path[..k]) <==> Loose(s, path[..k])
    {
      if k > 0 {
        assert |Parent(path[..k])| < |path|;
      } else {
        RootIsNotLoose(s);
      }
    }
  }

  /** Create the staging directory and the staged file, and flush the file. */
  method Stage(disk: Disk, ghost lay: Layout, ghost target: Path, text: string, temp: Path, ghost s0: DiskState, ghost from: nat)
    returns (r: Result<()>)
    requires Tidy(disk.s, lay) && ObjectPath(lay, target) && Now(disk.s, lay.root) == Some(Dir)
    requires |temp| == |lay.root| + 2 && Parent(temp) == Staging(lay) && Now(disk.s, temp).None?
    requires Keeps(s0, disk.s, Touches(s0, lay, target, temp))
    requires TidyTrace(disk.trace, from, s0, Touches(s0, lay, target, temp), lay)
    modifies disk
    ensures old(disk.trace) <= disk.trace
    ensures Tidy(disk.s, lay)
    ensures Keeps(s0, disk.s, Touches(s0, lay, target, temp))
    ensures TidyTrace(disk.trace, from, s0, Touches(s0, lay, target, temp), lay)
    ensures r.Err? <==> IsFileAt(old(disk.s), Staging(lay))
    ensures r.Ok? ==> Holding(disk.s, temp, text) && Now(disk.s, Staging(lay)) == Some(Dir)
    ensures r.Ok? ==> Now(disk.s, temp) != Some(Dir)
    ensures Keeps(old(disk.s), disk.s, {Staging(lay), temp}) && DirsStay(old(disk.s), disk.s)
    ensures Grows(old(disk.s), disk.s)
  {
    hide Coherent, Keeps, FilesFlushed, Missing, Possible, Create, Bind, WriteFile, SyncFile, DirsStay, Grows;
    ghost var touched := Touches(s0, lay, target, temp);
    ghost var start := disk.s;
    r := MakeStaging(disk, lay, Parent(temp), s0, from, touched, temp);
    if r.Err? {
      return;
    }
    ghost var s1 := disk.s;
    var inode := disk.s.nextInode;
    TempIsNoObject(lay, temp);
    CreateKeeps(s1, temp);
    FileKeepsTidy(s1, Create(s1, temp), lay, temp);
    Call(disk, Create(disk.s, temp), {temp}, s0, from, touched, lay);
    ghost var s2 := disk.s;
    WriteKeeps(s2, inode, text);
    SyncKeepsTidy(s2, WriteFile(s2, inode, text), lay);
    Call(disk, WriteFile(disk.s, inode, text), {}, s0, from, touched, lay);
    ghost var s3 := disk.s;
    SyncFileKeeps(s3, inode);
    SyncKeepsTidy(s3, SyncFile(s3, inode), lay);
    Call(disk, SyncFile(disk.s, inode), {}, s0, from, touched, lay);
    FlushedHolds(s3, inode, text);
    SameNames(s2, s3, disk.s, inode, text);
    KeepsMore(s2, s3, {}, {temp});
    KeepsMore(s3, disk.s, {}, {temp});
    KeepsTransitive(s1, s2, s3, {temp});
    KeepsTransitive(s1, s3, disk.s, {temp});
    ExtendKeeps(start, s1, disk.s, {temp}, {Staging(lay), temp});
    FileLeavesDirs(start, s1, disk.s, temp);
    KeepsNames(s1, disk.s, {temp}, Staging(lay));
    CreateGrows(s1, temp);
    SameGrows(start, s1, s2, disk.s);
    return Ok(());
  }

  lemma SameGrows(s: DiskState, s1: DiskState, s2: DiskState, t: DiskState)
    requires Grows(s, s1) && Grows(s1, s2) && forall p :: Possible(t, p) == Possible(s2, p)
    ensures Grows(s, t)
  {
    hide Possible;
  }

  lemma TempIsNoObject(lay: Layout, temp: Path)
    requires |temp| == |lay.root| + 2
    ensures !ObjectPath(lay, temp)
  {
  }

  lemma FileLeavesDirs(s: DiskState, t: DiskState, u: DiskState, p: Path)
    requires DirsStay(s, t) && Keeps(t, u, {p}) && Now(t, p) != Some(Dir)
    ensures DirsStay(s, u)
  {
  }

  /** The staging directory is created without any flush. */
  method MakeStaging(
    disk: Disk, ghost lay: Layout, staging: Path, ghost s0: DiskState, ghost from: nat, ghost touched: set<Path>,
    ghost temp: Path)
    returns (r: Result<()>)
    requires Tidy(disk.s, lay) && staging == Staging(lay) && staging in touched && Now(disk.s, lay.root) == Some(Dir)
    requires temp != staging && Now(disk.s, temp).None?
    requires Keeps(s0, disk.s, touched) && TidyTrace(disk.trace, from, s0, touched, lay)
    modifies disk
    ensures old(disk.trace) <= disk.trace
    ensures Tidy(disk.s, lay) && Keeps(s0, disk.s, touched) && TidyTrace(disk.trace, from, s0, touched, lay)
    ensures Now(disk.s, temp).None?
    ensures r.Err? <==> IsFileAt(old(disk.s), staging)
    ensures r.Ok? ==> Now(disk.s, staging) == Some(Dir)
    ensures Keeps(old(disk.s), disk.s, {staging, temp}) && DirsStay(old(disk.s), disk.s) && Grows(old(disk.s), disk.s)
  {
    hide Coherent, Keeps, FilesFlushed, Possible, Bind;
    KeepsItself(disk.s, {staging, temp});
    if Now(disk.s, staging).Some? && Now(disk.s, staging).value.File? {
      return Err({OtherIo});
    }
    if Now(disk.s, staging).None? {
      ghost var s := disk.s;
      assert Parent(staging) == lay.root;
      BindKeeps(s, staging, Some(Dir));
      BindGrows(s, staging, Some(Dir));
      FilesFlushedStay(s, Bind(s, staging, Some(Dir)), {staging}, lay);
      KeepsNames(s, Bind(s, staging, Some(Dir)), {staging}, temp);
      KeepsMore(s, Bind(s, staging, Some(Dir)), {staging}, {staging, temp});
      FileLeavesDirs(s, s, Bind(s, staging, Some(Dir)), staging);
      Call(disk, Bind(disk.s, staging, Some(Dir)), {staging}, s0, from, touched, lay);
    }
    return Ok(());
  }

  /** Creating, linking or removing a file keeps the storage tidy. */
  lemma FileKeepsTidy(s: DiskState, t: DiskState, lay: Layout, p: Path)
    requires Tidy(s, lay) && Coherent(t) && Keeps(s, t, {p})
    requires ObjectPath(lay, p) ==> forall i :: Now(t, p) == Some(File(i)) ==> i in t.flushed && i in t.contents
    ensures Tidy(t, lay)
  {
    hide Coherent, Keeps, FilesFlushed, Possible, Now;
    FilesFlushedStay(s, t, {p}, lay);
  }

  /** The end of `publish`. */
  method LinkInto(disk: Disk, ghost lay: Layout, target: Path, text: string, temp: Path, ghost s0: DiskState, ghost from: nat)
    returns (r: Result<()>)
    requires Tidy(disk.s, lay) && ObjectPath(lay, target) && Now(disk.s, Parent(target)) == Some(Dir)
    requires |temp| == |lay.root| + 2 && Holding(disk.s, temp, text)
    requires Keeps(s0, disk.s, Touches(s0, lay, target, temp))
    requires TidyTrace(disk.trace, from, s0, Touches(s0, lay, target, temp), lay)
    modifies disk
    ensures old(disk.trace) <= disk.trace
    ensures Tidy(disk.s, lay) && Keeps(s0, disk.s, Touches(s0, lay, target, temp))
    ensures TidyTrace(disk.trace, from, s0, Touches(s0, lay, target, temp), lay)
    ensures r.Err? <==> Taken(old(disk.s), target, text)
    ensures r.Ok? ==> Holding(disk.s, target, text) && Possible(disk.s, target) == {Now(disk.s, target)}
    ensures r.Ok? ==> NoNewLoose(old(disk.s), disk.s) && StaysLoose(old(disk.s), disk.s, {Parent(target)})
    ensures DirsStay(old(disk.s), disk.s)
  {
    hide Coherent, Keeps, FilesFlushed, Missing, Possible, Bind, SyncDir, DirsStay, NoNewLoose, StaysLoose, Settled, Loose;
    DirsStayItself(disk.s);
    ghost var touched := Touches(s0, lay, target, temp);
    ghost var s := disk.s;
    NothingLoosened(s);
    var node := Now(disk.s, target);
    if node.Some? {
      if node.value.Dir? || node.value.inode !in disk.s.contents || disk.s.contents[node.value.inode] != text {
        return Err({Rejected});
      }
      StoredIsFlushed(s, lay, target);
    } else {
      AbsentBefore(s0, s, touched, target, lay, temp);
      BindKeeps(s, target, Now(s, temp)) by {
        HeldInode(s, temp, text);
      }
      FileKeepsTidy(s, Bind(s, target, Now(s, temp)), lay, target) by {
        TextStays(s, Bind(s, target, Now(s, temp)), {target}, Now(s, temp), text);
      }
      TextStays(s, Bind(s, target, Now(s, temp)), {target}, Now(s, temp), text);
      FileLeavesDirs(s, s, Bind(s, target, Now(s, temp)), target);
      FileLoosensNothing(s, s, target, Now(s, temp));
      Call(disk, Bind(disk.s, target, Now(disk.s, temp)), {target}, s0, from, touched, lay);
    }
    ghost var linked := disk.s;
    TempAside(s, linked, lay, target, temp);
    BindKeeps(linked, temp, None);
    FileKeepsTidy(linked, Bind(linked, temp, None), lay, temp);
    FileLeavesDirs(s, linked, Bind(linked, temp, None), temp);
    FileLoosensNothing(s, linked, temp, None);
    Call(disk, Bind(disk.s, temp, None), {temp}, s0, from, touched, lay);
    ghost var removed := disk.s;
    KeepsNames(linked, removed, {temp}, target);
    TextStays(linked, removed, {temp}, Now(linked, target), text);
    SyncDirKeeps(removed, Parent(target));
    SyncKeepsTidy(removed, SyncDir(removed, Parent(target)), lay);
    SyncLoosensNothing(s, removed, Parent(target));
    Call(disk, SyncDir(disk.s, Parent(target)), {}, s0, from, touched, lay);
    SyncLeavesDirs(s, removed, disk.s);
    KeepsNames(removed, disk.s, {}, target);
    TextStays(removed, disk.s, {}, Now(removed, target), text);
    return Ok(());
  }

  lemma NothingLoosened(s: DiskState)
    ensures NoNewLoose(s, s) && StaysLoose(s, s, {})
  {
  }

  /** Naming or removing a file changes nothing about directories. */
  lemma FileLoosensNothing(s: DiskState, t: DiskState, p: Path, v: Option<Node>)
    requires Coherent(t) && NoNewLoose(s, t) && StaysLoose(s, t, {}) && Now(t, p) != Some(Dir) && v != Some(Dir)
    ensures NoNewLoose(s, Bind(t, p, v)) && StaysLoose(s, Bind(t, p, v), {})
  {
    hide Coherent;
    BindStaysLoose(t, p, v);
    var u := Bind(t, p, v);
    assert forall q :: q != p ==> Now(u, q) == Now(t, q) && Possible(u, q) == Possible(t, q);
    forall d | Loose(u, d)
      ensures Loose(t, d)
    {
    }
  }

  lemma SyncLoosensNothing(s: DiskState, t: DiskState, d: Path)
    requires Coherent(t) && NoNewLoose(s, t) && StaysLoose(s, t, {})
    ensures NoNewLoose(s, SyncDir(t, d)) && StaysLoose(s, SyncDir(t, d), {d})
  {
    hide Coherent;
    NothingSettled(t);
    SyncStaysLoose(t, d, {});
    SyncDirKeeps(t, d);
    var u := SyncDir(t, d);
    forall q | Loose(u, q)
      ensures Loose(t, q)
    {
      StillPossible(u, q);
    }
  }

  lemma DirsStayItself(s: DiskState)
    ensures DirsStay(s, s)
  {
  }

  lemma SyncLeavesDirs(s: DiskState, t: DiskState, u: DiskState)
    requires DirsStay(s, t) && Keeps(t, u, {})
    ensures DirsStay(s, u)
  {
  }

  lemma StoredIsFlushed(s: DiskState, lay: Layout, target: Path)
    requires FilesFlushed(s, lay) && ObjectPath(lay, target) && Now(s, target).Some? && Now(s, target).value.File?
    ensures Now(s, target).value.inode in s.flushed
  {
  }

  lemma HeldInode(s: DiskState, temp: Path, text: string)
    requires Coherent(s) && Holding(s, temp, text)
    ensures Now(s, temp).value.File? && Now(s, temp).value.inode < s.nextInode
  {
  }

  lemma AbsentBefore(s0: DiskState, s: DiskState, touched: set<Path>, target: Path, lay: Layout, temp: Path)
    requires ObjectPath(lay, target) && touched == Touches(s0, lay, target, temp)
    requires Keeps(s0, s, touched) && Now(s, target).None?
    ensures target in touched
  {
    if Now(s0, target).Some? {
      assert target !in touched ==> Now(s, target) == Now(s0, target);
    }
  }

  lemma TempAside(s: DiskState, t: DiskState, lay: Layout, target: Path, temp: Path)
    requires ObjectPath(lay, target) && |temp| == |lay.root| + 2
    requires t == s || Keeps(s, t, {target})
    ensures temp != target && Now(t, temp) == Now(s, temp) && !ObjectPath(lay, temp)
  {
  }

  lemma SyncKeepsTidy(s: DiskState, t: DiskState, lay: Layout)
    requires Tidy(s, lay) && Coherent(t) && Keeps(s, t, {})
    ensures Tidy(t, lay)
  {
    hide Coherent, Keeps, FilesFlushed;
    FilesFlushedStay(s, t, {}, lay);
  }

  // ---------------------------------------------------------------------------
  // Moving HEAD

  /** `read_head` */
  function ReadHead(s: DiskState, lay: Layout): Option<string> {
    var node := Now(s, AtRoot(lay, "HEAD"));
    if node.Some? && node.value.File? && node.value.inode in s.contents then Some(s.contents[node.value.inode]) else None
  }

  ghost predicate NeedsFirm(s: DiskState, lay: Layout, head: string) {
    forall p :: p in lay.needs(head) ==> FirmFile(s, p, lay.text(p))
  }

  /** A name for a temporary in the storage root. */
  predicate Temporary(name: string) {
    name !in {"HEAD", "FORMAT", "README.md", "packs", "manifests", ".staging"}
  }

  lemma NeedsStay(s: DiskState, t: DiskState, lay: Layout, name: string, temporary: string, head: string)
    requires WellLaid(lay) && Coherent(t) && NeedsFirm(s, lay, head)
    requires name !in {"packs", "manifests"} && Temporary(temporary)
    requires Keeps(s, t, {AtRoot(lay, name), AtRoot(lay, temporary)})
    ensures NeedsFirm(t, lay, head)
  {
    hide Coherent, Keeps, FirmFile;
    forall p | p in lay.needs(head)
      ensures FirmFile(t, p, lay.text(p))
    {
      RootFilesAside(lay, name, p);
      RootFilesAside(lay, temporary, p);
      FirmFileStays(s, t, {AtRoot(lay, name), AtRoot(lay, temporary)}, p, lay.text(p));
    }
  }

  lemma RootFilesKeepTidy(s: DiskState, t: DiskState, lay: Layout, name: string, temporary: string)
    requires Tidy(s, lay) && Coherent(t) && Keeps(s, t, {AtRoot(lay, name), AtRoot(lay, temporary)})
    ensures Tidy(t, lay)
  {
    hide Coherent, Keeps, FilesFlushed, Possible, Now;
    FilesFlushedStay(s, t, {AtRoot(lay, name), AtRoot(lay, temporary)}, lay);
  }

  /** Replacing a root file leaves it, and the others, plain. */
  lemma PlainStays(s: DiskState, t: DiskState, lay: Layout, name: string, temporary: string, text: string)
    requires Plain(s, lay) && Temporary(temporary)
    requires Keeps(s, t, {AtRoot(lay, name), AtRoot(lay, temporary)}) && Between(s, t, AtRoot(lay, name), text)
    ensures Plain(t, lay)
  {
    hide Possible, Now, Keeps;
    var touched := {AtRoot(lay, name), AtRoot(lay, temporary)};
    assert AtRoot(lay, name)[|lay.root|] == name && AtRoot(lay, temporary)[|lay.root|] == temporary;
    forall other | other in {"FORMAT", "README.md"}
      ensures Some(Dir) !in Possible(t, AtRoot(lay, other))
    {
      assert AtRoot(lay, other)[|lay.root|] == other;
      if other != name {
        KeepsNames(s, t, touched, AtRoot(lay, other));
      }
    }
  }

  lemma RootStaysFirm(s: DiskState, t: DiskState, lay: Layout, name: string, temporary: string)
    requires FirmDirs(s, lay.root) && Coherent(t) && Keeps(s, t, {AtRoot(lay, name), AtRoot(lay, temporary)})
    ensures FirmDirs(t, lay.root)
  {
    hide Coherent, Keeps, FirmDirs;
    var touched := {AtRoot(lay, name), AtRoot(lay, temporary)};
    forall q | q in touched
      ensures !IsPrefix(q, lay.root)
    {
      if IsPrefix(q, lay.root) {
        PrefixIsShorter(q, lay.root);
      }
    }
    FirmDirsStay(s, t, touched, lay.root);
  }

  /** In every state of HEAD's replacement, a surviving HEAD is wholly old or
      wholly new, and complete either way. */
  lemma HeadReplacedSafely(
    s: DiskState, t: DiskState, lay: Layout, temporary: string, heads: set<string>, next: string)
    requires WellLaid(lay) && Sound(s, lay, heads) && Coherent(t) && Temporary(temporary)
    requires Now(s, AtRoot(lay, temporary)).None? && Complete(s, lay, next)
    requires Keeps(s, t, {AtRoot(lay, "HEAD"), AtRoot(lay, temporary)})
    requires Between(s, t, AtRoot(lay, "HEAD"), next)
    ensures Sound(t, lay, heads + {next}) && Complete(t, lay, next)
  {
    hide Coherent, Keeps, Complete, HoldsText, Possible, WellLaid, FilesFlushed, Plain;
    var path, temp := AtRoot(lay, "HEAD"), AtRoot(lay, temporary);
    var touched := {path, temp};
    assert temp[|lay.root|] == temporary && path[|lay.root|] == "HEAD";
    assert Harmless(s, lay, temp);
    CompleteStays(s, t, touched, lay, next);
    forall v | v in Possible(t, path) && v.Some?
      ensures exists head :: head in heads + {next} && HoldsText(t, v, head) && Complete(t, lay, head)
    {
      if v in Possible(s, path) {
        var head :| head in heads && HoldsText(s, v, head) && Complete(s, lay, head);
        TextStays(s, t, touched, v, head);
        CompleteStays(s, t, touched, lay, head);
      }
    }
    RootFilesKeepTidy(s, t, lay, "HEAD", temporary);
    PlainStays(s, t, lay, "HEAD", temporary, next);
    HeadStaysSettled(s, t, lay, next);
  }

  lemma HeadStaysSettled(s: DiskState, t: DiskState, lay: Layout, next: string)
    requires HeadSettled(s, lay) && Coherent(t) && Between(s, t, AtRoot(lay, "HEAD"), next)
    ensures HeadSettled(t, lay)
  {
    hide Coherent;
    StillPossible(t, AtRoot(lay, "HEAD"));
  }

  lemma HeadReplacedThroughout(
    trace: seq<DiskState>, from: nat, s: DiskState, lay: Layout, temporary: string, heads: set<string>, next: string)
    requires WellLaid(lay) && Sound(s, lay, heads) && Temporary(temporary) && Now(s, AtRoot(lay, temporary)).None?
    requires Complete(s, lay, next)
    requires Traced(trace, from, s, {AtRoot(lay, "HEAD"), AtRoot(lay, temporary)})
    requires Replacing(trace, from, s, AtRoot(lay, "HEAD"), next)
    ensures AlwaysSound(trace, from, lay, heads + {next})
  {
    hide Coherent, Keeps, Complete, Possible, WellLaid, Sound, Between;
    forall i | from <= i < |trace|
      ensures Sound(trace[i], lay, heads + {next})
    {
      HeadReplacedSafely(s, trace[i], lay, temporary, heads, next);
    }
  }

  /** A storage that has no HEAD yet, and that a crash leaves without one. */
  ghost predicate Headless(s: DiskState, lay: Layout) {
    && Tidy(s, lay) && Plain(s, lay) && Now(s, lay.root) == Some(Dir)
    && Possible(s, AtRoot(lay, "HEAD")) == {None}
  }

  lemma HeadlessIsSound(s: DiskState, lay: Layout, heads: set<string>)
    requires Headless(s, lay)
    ensures Sound(s, lay, heads)
  {
    hide Coherent, FilesFlushed, Plain, Complete, HoldsText;
  }

  lemma HeadlessStays(s: DiskState, t: DiskState, lay: Layout, name: string, temporary: string, text: string)
    requires Headless(s, lay) && Coherent(t) && name != "HEAD" && Temporary(temporary)
    requires Keeps(s, t, {AtRoot(lay, name), AtRoot(lay, temporary)}) && Between(s, t, AtRoot(lay, name), text)
    ensures Headless(t, lay)
  {
    hide Coherent, Keeps, Possible, Plain, FilesFlushed, Between, Now;
    assert AtRoot(lay, name)[|lay.root|] == name && AtRoot(lay, temporary)[|lay.root|] == temporary;
    assert AtRoot(lay, "HEAD")[|lay.root|] == "HEAD";
    RootFilesKeepTidy(s, t, lay, name, temporary);
    PlainStays(s, t, lay, name, temporary, text);
    KeepsNames(s, t, {AtRoot(lay, name), AtRoot(lay, temporary)}, lay.root);
    KeepsNames(s, t, {AtRoot(lay, name), AtRoot(lay, temporary)}, AtRoot(lay, "HEAD"));
    StillPossible(t, AtRoot(lay, "HEAD"));
  }

  lemma HeadlessThroughout(
    trace: seq<DiskState>, from: nat, s: DiskState, lay: Layout, name: string, temporary: string, text: string,
    heads: set<string>)
    requires Headless(s, lay) && name != "HEAD" && Temporary(temporary)
    requires Traced(trace, from, s, {AtRoot(lay, name), AtRoot(lay, temporary)})
    requires Replacing(trace, from, s, AtRoot(lay, name), text)
    ensures AlwaysSound(trace, from, lay, heads)
  {
    hide Coherent, Keeps, Headless, Sound, Between;
    forall i | from <= i < |trace|
      ensures Sound(trace[i], lay, heads)
    {
      HeadlessStays(s, trace[i], lay, name, temporary, text);
      HeadlessIsSound(trace[i], lay, heads);
    }
  }

  lemma PlainMeansNoDirectory(s: DiskState, lay: Layout, name: string)
    requires Coherent(s) && Plain(s, lay) && name in {"FORMAT", "README.md"}
    ensures Now(s, AtRoot(lay, name)) != Some(Dir)
  {
    hide Coherent;
    StillPossible(s, AtRoot(lay, name));
  }

  /** What the new head needs survives, and so does the storage root. */
  ghost predicate Based(s: DiskState, lay: Layout, next: string) {
    NeedsFirm(s, lay, next) && FirmDirs(s, lay.root)
  }

  lemma BaseStays(s: DiskState, t: DiskState, lay: Layout, name: string, temporary: string, head: string)
    requires WellLaid(lay) && Coherent(t) && Based(s, lay, head)
    requires name !in {"packs", "manifests"} && Temporary(temporary)
    requires Keeps(s, t, {AtRoot(lay, name), AtRoot(lay, temporary)})
    ensures Based(t, lay, head)
  {
    hide WellLaid, Coherent, NeedsFirm, FirmDirs, Keeps;
    NeedsStay(s, t, lay, name, temporary, head);
    RootStaysFirm(s, t, lay, name, temporary);
  }

  /** One root file of a new storage, before there is a HEAD. */
  method WriteGenesisFile(
    disk: Disk, lay: Layout, name: string, text: string, temporary: string, ghost next: string, ghost heads: set<string>)
    requires WellLaid(lay) && Headless(disk.s, lay)
    requires name in {"FORMAT", "README.md"} && Temporary(temporary)
    requires Now(disk.s, AtRoot(lay, temporary)).None?
    modifies disk
    ensures old(disk.trace) <= disk.trace
    ensures AlwaysSound(disk.trace, |old(disk.trace)|, lay, heads)
    ensures Headless(disk.s, lay) && (Based(old(disk.s), lay, next) ==> Based(disk.s, lay, next))
    ensures forall v :: v in Possible(disk.s, AtRoot(lay, name)) ==> HoldsText(disk.s, v, text)
    ensures Keeps(old(disk.s), disk.s, {AtRoot(lay, name), AtRoot(lay, temporary)})
    ensures NoNewLoose(old(disk.s), disk.s)
  {
    hide Coherent, Keeps, FilesFlushed, Possible, Now, FirmFile, HoldsText, WellLaid, HeadSafe, Plain, Between, Sound, Based,
      NoNewLoose;
    ghost var s := disk.s;
    PlainMeansNoDirectory(s, lay, name);
    ReplaceFileDurably(disk, lay.root, temporary, name, text);
    if Based(s, lay, next) {
      BaseStays(s, disk.s, lay, name, temporary, next);
    }
    HeadlessThroughout(disk.trace, |old(disk.trace)|, s, lay, name, temporary, text, heads);
    WholeReplaced(s, disk.s, AtRoot(lay, name), text);
    FilesLoosenNothing(s, disk.s, {AtRoot(lay, name), AtRoot(lay, temporary)});
    HeadlessStays(s, disk.s, lay, name, temporary, text);
  }

  lemma FilesLoosenNothing(s: DiskState, t: DiskState, touched: set<Path>)
    requires Coherent(t) && Keeps(s, t, touched) && forall p :: p in touched ==> Now(t, p) != Some(Dir)
    ensures NoNewLoose(s, t)
  {
    forall d | Loose(t, d)
      ensures Loose(s, d)
    {
      assert d !in touched;
      assert Now(t, d) in Possible(t, d);
    }
  }

  lemma LooseTransitive(s: DiskState, t: DiskState, u: DiskState, lay: Layout)
    requires OnlyStagingLoose(s, t, lay) && (NoNewLoose(t, u) || OnlyStagingLoose(t, u, lay))
    ensures OnlyStagingLoose(s, u, lay)
  {
    hide Loose;
  }

  lemma NoneLooseTransitive(s: DiskState, t: DiskState, u: DiskState)
    requires NoNewLoose(s, t) && NoNewLoose(t, u)
    ensures NoNewLoose(s, u)
  {
    hide Loose;
  }

  lemma WholeReplaced(s: DiskState, t: DiskState, dest: Path, text: string)
    requires Possible(t, dest) == {Now(t, dest)} && forall v :: v in Possible(t, dest) ==> HoldsText(t, v, text)
    ensures Between(s, t, dest, text)
  {
    hide Possible;
    assert Now(t, dest) in Possible(t, dest);
  }

  /** Names for the three temporaries. */
  ghost predicate FreshNames(s: DiskState, lay: Layout, temporaries: seq<string>) {
    && |temporaries| == 3
    && (forall i :: 0 <= i < 3 ==> Temporary(temporaries[i]) && Now(s, AtRoot(lay, temporaries[i])).None?)
    && temporaries[0] != temporaries[1] && temporaries[0] != temporaries[2] && temporaries[1] != temporaries[2]
  }

  lemma StillFresh(s: DiskState, t: DiskState, lay: Layout, name: string, temporary: string, other: string)
    requires Keeps(s, t, {AtRoot(lay, name), AtRoot(lay, temporary)})
    requires other != name && other != temporary
    ensures Now(t, AtRoot(lay, other)) == Now(s, AtRoot(lay, other))
  {
    assert AtRoot(lay, other)[|lay.root|] == other && AtRoot(lay, name)[|lay.root|] == name;
    assert AtRoot(lay, temporary)[|lay.root|] == temporary;
  }

  /** `write_genesis_files`: the notice if there is none, then FORMAT. */
  method WriteGenesisFiles(disk: Disk, lay: Layout, temporaries: seq<string>, ghost next: string, ghost heads: set<string>)
    requires WellLaid(lay) && Headless(disk.s, lay) && FreshNames(disk.s, lay, temporaries)
    modifies disk
    ensures old(disk.trace) <= disk.trace
    ensures AlwaysSound(disk.trace, |old(disk.trace)|, lay, heads)
    ensures Headless(disk.s, lay) && (Based(old(disk.s), lay, next) ==> Complete(disk.s, lay, next))
    ensures Now(disk.s, AtRoot(lay, temporaries[2])).None? && NoNewLoose(old(disk.s), disk.s)
  {
    hide NoNewLoose, Loose;
    hide Coherent, Keeps, FilesFlushed, Possible, Now, FirmFile, HoldsText, WellLaid, HeadSafe, Headless, Based,
      Complete, AlwaysSound;
    ghost var s0 := disk.s;
    NothingLoosened(s0);
    NothingYet(disk.trace, lay, heads);
    if Now(disk.s, AtRoot(lay, "README.md")).None? {
      WriteGenesisFile(disk, lay, "README.md", "notice", temporaries[0], next, heads);
      StillFresh(s0, disk.s, lay, "README.md", temporaries[0], temporaries[1]);
      StillFresh(s0, disk.s, lay, "README.md", temporaries[0], temporaries[2]);
    }
    ghost var s1 := disk.s;
    ghost var before := disk.trace;
    assert AlwaysSound(before, |old(disk.trace)|, lay, heads);
    WriteGenesisFile(disk, lay, "FORMAT", FORMAT_TEXT, temporaries[1], next, heads);
    AlwaysSoundJoin(disk.trace, before, |old(disk.trace)|, lay, heads);
    StillFresh(s1, disk.s, lay, "FORMAT", temporaries[1], temporaries[2]);
    NoneLooseTransitive(s0, s1, disk.s);
    if Based(disk.s, lay, next) {
      GenesisIsComplete(disk.s, lay, next);
    }
  }

  lemma NothingYet(trace: seq<DiskState>, lay: Layout, heads: set<string>)
    ensures AlwaysSound(trace, |trace|, lay, heads)
  {
  }

  lemma GenesisIsComplete(s: DiskState, lay: Layout, next: string)
    requires Based(s, lay, next)
    requires forall v :: v in Possible(s, AtRoot(lay, "FORMAT")) ==> HoldsText(s, v, FORMAT_TEXT)
    ensures Complete(s, lay, next)
  {
    hide HoldsText, Possible, FirmDirs;
    assert Parent(AtRoot(lay, "FORMAT")) == lay.root;
  }

  /** `compare_and_swap_head` of the directory backend. It succeeds exactly when
      HEAD reads as expected, and then the new HEAD is durable. If what the new
      head needs survives, then at every crash point a surviving HEAD is one of
      the earlier IDs or the new one, whole, beside FORMAT, over a complete
      chain. */
  method CompareAndSwapHead(
    disk: Disk, lay: Layout, expected: Option<string>, next: string, temporaries: seq<string>, ghost heads: set<string>)
    returns (r: Result<()>)
    requires WellLaid(lay) && Sound(disk.s, lay, heads) && Now(disk.s, lay.root) == Some(Dir)
    requires FreshNames(disk.s, lay, temporaries)
    modifies disk
    ensures old(disk.trace) <= disk.trace
    ensures r.Ok? <==> ReadHead(old(disk.s), lay) == expected
    ensures r.Err? ==> disk.s == old(disk.s) && disk.trace == old(disk.trace)
    ensures r.Ok? ==> Swapped(disk.s, lay, next) && NoNewLoose(old(disk.s), disk.s)
    ensures r.Ok? && Based(old(disk.s), lay, next) ==>
      AlwaysSound(disk.trace, |old(disk.trace)|, lay, heads + {next}) && Sound(disk.s, lay, {next})
  {
    hide Coherent, Keeps, FilesFlushed, Possible, Now, FirmFile, HoldsText, WellLaid, Sound, Based, Complete, Headless,
      ReadHead, Tidy, AlwaysSound, NoNewLoose, Loose;
    NothingLoosened(disk.s);
    NothingYet(disk.trace, lay, heads + {next});
    var actual := ReadHead(disk.s, lay);
    if actual != expected {
      return Err({Rejected});
    }
    ghost var s0 := disk.s;
    if actual.None? {
      HeadIsAbsent(s0, lay, heads);
      WriteGenesisFiles(disk, lay, temporaries, next, heads + {next});
      HeadlessIsSound(disk.s, lay, heads);
      HeadlessHasRoot(disk.s, lay);
    } else {
      if Based(s0, lay, next) {
        HeadHasFormat(s0, lay, heads, next);
      }
      SoundHasRoot(s0, lay, heads);
    }
    ghost var s := disk.s;
    ghost var before := disk.trace;
    ReplaceFileDurably(disk, lay.root, temporaries[2], "HEAD", next);
    if Based(s0, lay, next) {
      HeadReplacedThroughout(disk.trace, |before|, s, lay, temporaries[2], heads, next);
      AlwaysSoundJoin(disk.trace, before, |old(disk.trace)|, lay, heads + {next});
      HeadIsDurable(s, disk.s, lay, temporaries[2], heads, next);
    }
    HeadIsSwapped(disk.s, lay, next);
    FilesLoosenNothing(s, disk.s, {AtRoot(lay, "HEAD"), AtRoot(lay, temporaries[2])});
    NoneLooseTransitive(s0, s, disk.s);
    return Ok(());
  }

  /** HEAD is this ID, and a crash leaves it so. */
  ghost predicate Swapped(s: DiskState, lay: Layout, next: string) {
    var head := AtRoot(lay, "HEAD");
    Possible(s, head) == {Now(s, head)} && HoldsText(s, Now(s, head), next)
  }

  lemma HeadIsSwapped(s: DiskState, lay: Layout, next: string)
    requires Possible(s, AtRoot(lay, "HEAD")) == {Now(s, AtRoot(lay, "HEAD"))}
    requires forall v :: v in Possible(s, AtRoot(lay, "HEAD")) ==> HoldsText(s, v, next)
    ensures Swapped(s, lay, next)
  {
    hide Possible, HoldsText;
    assert Now(s, AtRoot(lay, "HEAD")) in Possible(s, AtRoot(lay, "HEAD"));
  }

  /** A HEAD that reads as nothing is absent: a surviving HEAD has a text. */
  lemma HeadIsAbsent(s: DiskState, lay: Layout, heads: set<string>)
    requires Sound(s, lay, heads) && Now(s, lay.root) == Some(Dir) && ReadHead(s, lay).None?
    ensures Headless(s, lay)
  {
    hide Complete, Coherent, FilesFlushed, Plain;
    StillPossible(s, AtRoot(lay, "HEAD"));
  }

  lemma HeadHasFormat(s: DiskState, lay: Layout, heads: set<string>, next: string)
    requires Sound(s, lay, heads) && ReadHead(s, lay).Some? && Based(s, lay, next)
    ensures Complete(s, lay, next)
  {
    hide FirmFile, FirmDirs, HoldsText, Coherent, FilesFlushed, Plain;
    var v := Now(s, AtRoot(lay, "HEAD"));
    StillPossible(s, AtRoot(lay, "HEAD"));
    var head :| head in heads && HoldsText(s, v, head) && Complete(s, lay, head);
  }

  /** What `replace_file_durably` finds for HEAD. */
  lemma SoundHasRoot(s: DiskState, lay: Layout, heads: set<string>)
    requires Sound(s, lay, heads)
    ensures Coherent(s) && Now(s, AtRoot(lay, "HEAD")) != Some(Dir)
  {
    hide Complete, Coherent, FilesFlushed, Plain;
    StillPossible(s, AtRoot(lay, "HEAD"));
  }

  lemma HeadlessHasRoot(s: DiskState, lay: Layout)
    requires Headless(s, lay)
    ensures Coherent(s) && Now(s, lay.root) == Some(Dir) && Now(s, AtRoot(lay, "HEAD")) != Some(Dir)
  {
    hide Coherent, FilesFlushed, Plain;
    StillPossible(s, AtRoot(lay, "HEAD"));
  }

  lemma AlwaysSoundJoin(trace: seq<DiskState>, before: seq<DiskState>, from: nat, lay: Layout, heads: set<string>)
    requires before <= trace && from <= |before|
    requires AlwaysSound(before, from, lay, heads) && AlwaysSound(trace, |before|, lay, heads)
    ensures AlwaysSound(trace, from, lay, heads)
  {
    hide Sound;
    forall i | from <= i < |trace|
      ensures Sound(trace[i], lay, heads)
    {
      if i < |before| {
        assert trace[i] == before[i];
      }
    }
  }

  lemma HeadIsDurable(s: DiskState, t: DiskState, lay: Layout, temporary: string, heads: set<string>, next: string)
    requires WellLaid(lay) && Sound(s, lay, heads) && Coherent(t) && Temporary(temporary) && Complete(s, lay, next)
    requires Keeps(s, t, {AtRoot(lay, "HEAD"), AtRoot(lay, temporary)}) && Now(s, AtRoot(lay, temporary)).None?
    requires forall v :: v in Possible(t, AtRoot(lay, "HEAD")) ==> HoldsText(t, v, next)
    requires Possible(t, AtRoot(lay, "HEAD")) == {Now(t, AtRoot(lay, "HEAD"))}
    ensures Sound(t, lay, {next}) && Swapped(t, lay, next)
  {
    hide Coherent, Keeps, FilesFlushed, HoldsText, Complete, WellLaid, Plain;
    HeadIsSwapped(t, lay, next);
    HeadReplacedSafely(s, t, lay, temporary, heads, next);
  }

  // ---------------------------------------------------------------------------
  // A whole publication

  lemma RootNameUntouched(s: DiskState, lay: Layout, target: Path, temp: Path, name: string)
    requires ObjectPath(lay, target) && |temp| == |lay.root| + 2
    requires name !in {"packs", "manifests", ".staging"}
    ensures AtRoot(lay, name) !in Touches(s, lay, target, temp)
  {
    hide Missing;
    var p := AtRoot(lay, name);
    assert p[|lay.root|] == name && Staging(lay)[|lay.root|] == ".staging";
    NotOnPath(s, lay, AtRoot(lay, "packs"), name);
    NotOnPath(s, lay, AtRoot(lay, "manifests"), name);
    NotOnPath(s, lay, Parent(target), name);
  }

  lemma NotOnPath(s: DiskState, lay: Layout, path: Path, name: string)
    requires |path| > |lay.root| && path[|lay.root|] != name
    ensures AtRoot(lay, name) !in Missing(s, path)
  {
    hide Missing;
    var p := AtRoot(lay, name);
    if p in Missing(s, path) {
      MissingSharesNames(s, path, p, |lay.root|);
    }
  }

  lemma StagingNameUntouched(s: DiskState, lay: Layout, target: Path, name: string, other: string)
    requires ObjectPath(lay, target) && name != other
    ensures Staging(lay) + [other] !in Touches(s, lay, target, Staging(lay) + [name])
  {
    hide Missing;
    var p := Staging(lay) + [other];
    assert p[|lay.root|] == ".staging" && p[|lay.root| + 1] == other && (Staging(lay) + [name])[|lay.root| + 1] == name;
    if p in Missing(s, Parent(target)) {
      MissingSharesNames(s, Parent(target), p, |lay.root|);
    }
    if p in Missing(s, AtRoot(lay, "packs")) {
      MissingIsAbsent(s, AtRoot(lay, "packs"), p);
    }
    if p in Missing(s, AtRoot(lay, "manifests")) {
      MissingIsAbsent(s, AtRoot(lay, "manifests"), p);
    }
  }

  /** What a publication may rely on before each of its steps. */
  ghost predicate Ready(s: DiskState, lay: Layout, heads: set<string>, temporaries: seq<string>) {
    Sound(s, lay, heads) && FreshNames(s, lay, temporaries)
  }

  lemma StaysFresh(
    s: DiskState, t: DiskState, lay: Layout, temporaries: seq<string>, target: Path, temp: Path)
    requires FreshNames(s, lay, temporaries) && ObjectPath(lay, target) && |temp| == |lay.root| + 2
    requires Keeps(s, t, Touches(s, lay, target, temp))
    ensures FreshNames(t, lay, temporaries)
  {
    hide Touches, Keeps;
    forall i | 0 <= i < 3
      ensures Now(t, AtRoot(lay, temporaries[i])).None?
    {
      RootNameUntouched(s, lay, target, temp, temporaries[i]);
      KeepsNames(s, t, Touches(s, lay, target, temp), AtRoot(lay, temporaries[i]));
    }
  }

  lemma StoredStays(s: DiskState, t: DiskState, lay: Layout, target: Path, temp: Path, p: Path)
    requires Coherent(s) && Coherent(t) && ObjectPath(lay, target) && ObjectPath(lay, p)
    requires |temp| == |lay.root| + 2 && Now(s, temp).None?
    requires Keeps(s, t, Touches(s, lay, target, temp)) && FirmFile(s, p, lay.text(p))
    ensures FirmFile(t, p, lay.text(p))
  {
    hide Coherent, Keeps, FirmFile, Touches, Harmless;
    var touched := Touches(s, lay, target, temp);
    forall q | q in touched
      ensures Harmless(s, lay, q)
    {
      TouchesHarmless(s, lay, target, temp, q);
    }
    ObjectStays(s, t, touched, lay, p);
  }

  /** One stored object of a publication: sound throughout, and firm at the end if
      no directory above it was loose. */
  method StoreSafely(
    disk: Disk, lay: Layout, target: Path, temporary: string, ghost heads: set<string>, ghost temporaries: seq<string>)
    returns (r: Result<()>)
    requires WellLaid(lay) && Ready(disk.s, lay, heads, temporaries) && ObjectPath(lay, target)
    requires Now(disk.s, Staging(lay) + [temporary]).None?
    modifies disk
    ensures old(disk.trace) <= disk.trace
    ensures AlwaysSound(disk.trace, |old(disk.trace)|, lay, heads)
    ensures r.Ok? ==> Ready(disk.s, lay, heads, temporaries) && Holding(disk.s, target, lay.text(target))
    ensures r.Ok? && FirmAbove(old(disk.s), Parent(target)) ==> FirmFile(disk.s, target, lay.text(target))
    ensures r.Ok? ==> Keeps(old(disk.s), disk.s, Touches(old(disk.s), lay, target, Staging(lay) + [temporary]))
    ensures r.Ok? ==> Coherent(old(disk.s)) && Coherent(disk.s) && OnlyStagingLoose(old(disk.s), disk.s, lay)
    ensures r.Err? <==> Obstructed(old(disk.s), lay, target, lay.text(target))
    ensures r.Ok? ==> Furnished(disk.s, lay)
  {
    hide Obstructed, FirmDirs, Furnished, Coherent, Keeps, FirmFile, Touches, Harmless, FilesFlushed, WellLaid, HeadSafe,
      HeadSettled, FreshNames, Plain, FirmAbove, Anchored, OnlyStagingLoose, Holding, TidyTrace, AlwaysSound;
    ghost var s := disk.s;
    ghost var temp := Staging(lay) + [temporary];
    ghost var touched := Touches(s, lay, target, temp);
    if FirmAbove(s, Parent(target)) {
      FirmIsAnchored(s, lay, target);
    }
    r := StoreObject(disk, lay, target, lay.text(target), temporary);
    forall q | q in touched
      ensures Harmless(s, lay, q)
    {
      TouchesHarmless(s, lay, target, temp, q);
    }
    RootNameUntouched(s, lay, target, temp, "FORMAT");
    RootNameUntouched(s, lay, target, temp, "README.md");
    TracedIsSound(disk.trace, |old(disk.trace)|, s, touched, lay, heads);
    if r.Ok? {
      SoundStays(s, disk.s, touched, lay, heads);
      StaysFresh(s, disk.s, lay, temporaries, target, temp);
    }
  }

  lemma FirmIsAnchored(s: DiskState, lay: Layout, target: Path)
    requires target != [] && FirmAbove(s, Parent(target))
    ensures Anchored(s, lay, target)
  {
    hide Loose;
    forall k | 0 < k < |target|
      ensures !Loose(s, target[..k])
    {
      assert target[..k] == Parent(target)[..k];
    }
  }

  lemma {:induction false} FirmRoot(s: DiskState, lay: Layout, target: Path, text: string)
    requires ObjectPath(lay, target) && FirmFile(s, target, text)
    ensures FirmDirs(s, lay.root)
  {
    var one := Parent(Parent(target));
    assert Parent(one) == lay.root;
    assert FirmDirs(s, Parent(target)) && FirmDirs(s, one) && FirmDirs(s, lay.root);
  }

  /** The objects stored so far, and those that were there, survive. */
  ghost predicate Gathered(
    s: DiskState, s0: DiskState, lay: Layout, objects: seq<Path>, count: nat, head: string, grounded: bool)
    requires count <= |objects|
  {
    && (forall j :: 0 <= j < count && grounded ==> FirmFile(s, objects[j], lay.text(objects[j])))
    && (forall p :: p in lay.needs(head) && FirmFile(s0, p, lay.text(p)) ==> FirmFile(s, p, lay.text(p)))
  }

  lemma GatheredStays(
    s: DiskState, t: DiskState, s0: DiskState, lay: Layout, objects: seq<Path>, k: nat, head: string, temp: Path,
    grounded: bool)
    requires WellLaid(lay) && Coherent(s) && Coherent(t) && k < |objects| && ObjectPath(lay, objects[k])
    requires forall j :: 0 <= j < |objects| ==> ObjectPath(lay, objects[j])
    requires |temp| == |lay.root| + 2 && Now(s, temp).None?
    requires Keeps(s, t, Touches(s, lay, objects[k], temp))
    requires Gathered(s, s0, lay, objects, k, head, grounded)
    requires grounded ==> FirmFile(t, objects[k], lay.text(objects[k]))
    ensures Gathered(t, s0, lay, objects, k + 1, head, grounded)
  {
    hide Coherent, Keeps, FirmFile, Touches, ObjectPath;
    forall j | 0 <= j < k && grounded
      ensures FirmFile(t, objects[j], lay.text(objects[j]))
    {
      StoredStays(s, t, lay, objects[k], temp, objects[j]);
    }
    forall p | p in lay.needs(head) && FirmFile(s0, p, lay.text(p))
      ensures FirmFile(t, p, lay.text(p))
    {
      StoredStays(s, t, lay, objects[k], temp, p);
    }
  }

  ghost predicate StagingFree(s: DiskState, lay: Layout, names: seq<string>, from: nat) {
    forall j :: from <= j < |names| ==> Now(s, Staging(lay) + [names[j]]).None?
  }

  /** No existing directory above the new objects is loose. */
  ghost predicate Grounded(s: DiskState, objects: seq<Path>) {
    forall j :: 0 <= j < |objects| && objects[j] != [] ==> FirmAbove(s, Parent(objects[j]))
  }

  lemma GroundedStays(s: DiskState, t: DiskState, lay: Layout, objects: seq<Path>)
    requires Grounded(s, objects) && OnlyStagingLoose(s, t, lay)
    requires forall j :: 0 <= j < |objects| ==> ObjectPath(lay, objects[j])
    ensures Grounded(t, objects)
  {
    hide Loose;
    forall j | 0 <= j < |objects|
      ensures FirmAbove(t, Parent(objects[j]))
    {
      ParentIsPlain(lay, objects[j]);
      forall k | 0 <= k <= |Parent(objects[j])|
        ensures !Loose(t, Parent(objects[j])[..k])
      {
        StagingAside(lay, Parent(objects[j]), Staging(lay) + ["x"], k);
        assert !Loose(s, Parent(objects[j])[..k]);
      }
    }
  }

  /** What a head needs; before the first head, nothing. */
  function Needed(lay: Layout, head: Option<string>): set<Path> {
    if head.Some? then lay.needs(head.value) else {}
  }

  /** All that the current HEAD needs survives. */
  lemma HeadNeedsAreFirm(s: DiskState, lay: Layout, heads: set<string>)
    requires Sound(s, lay, heads)
    ensures forall p :: p in Needed(lay, ReadHead(s, lay)) ==> FirmFile(s, p, lay.text(p))
  {
    hide FirmFile, Coherent, FilesFlushed, Plain;
    var v := Now(s, AtRoot(lay, "HEAD"));
    StillPossible(s, AtRoot(lay, "HEAD"));
    if ReadHead(s, lay).Some? {
      var head :| head in heads && HoldsText(s, v, head) && Complete(s, lay, head);
      assert ReadHead(s, lay) == Some(head);
    }
  }

  /** One publication in the directory backend: the new pack and manifest are
      stored, then HEAD moves. A new head may need what the expected head needs
      and the new objects. If no existing directory above them is loose, then at
      every moment, from the first call to the last, the storage is sound: a HEAD
      that survives a crash is an earlier ID or the new one, whole; FORMAT is
      beside it; and every manifest and pack of its chain survives intact. */
  method PublishGeneration(
    disk: Disk, lay: Layout, objects: seq<Path>, names: seq<string>, expected: Option<string>, next: string,
    temporaries: seq<string>, ghost heads: set<string>)
    returns (r: Result<()>)
    requires WellLaid(lay) && Ready(disk.s, lay, heads, temporaries)
    requires objects != [] && |names| == |objects|
    requires forall j :: 0 <= j < |objects| ==> ObjectPath(lay, objects[j])
    requires forall i, j :: 0 <= i < j < |names| ==> names[i] != names[j]
    requires StagingFree(disk.s, lay, names, 0)
    requires forall p :: p in lay.needs(next) ==> p in objects || p in Needed(lay, expected)
    modifies disk
    ensures old(disk.trace) <= disk.trace
    ensures r.Ok? <==> ReadHead(old(disk.s), lay) == expected && Unobstructed(old(disk.s), lay, objects, |objects|)
    ensures r.Ok? ==> Swapped(disk.s, lay, next) && OnlyStagingLoose(old(disk.s), disk.s, lay)
    ensures Grounded(old(disk.s), objects) || r.Err? ==>
      AlwaysSound(disk.trace, |old(disk.trace)|, lay, heads + {next})
    ensures Grounded(old(disk.s), objects) && r.Ok? ==> Sound(disk.s, lay, {next})
  {
    hide Coherent, Keeps, FirmFile, Touches, WellLaid, HeadSafe, Ready, AlwaysSound, ObjectPath, Obstructed, ReadHead,
      FirmDirs, Furnished, FirmAbove, OnlyStagingLoose, NoNewLoose, Sound, Needed, Holding, Based, Grounded;
    ghost var s0 := disk.s;
    OnlyStagingItself(s0, lay);
    ghost var grounded := Grounded(s0, objects);
    ghost var all := heads + {next};
    NothingYet(disk.trace, lay, all);
    for k := 0 to |objects|
      invariant old(disk.trace) <= disk.trace
      invariant AlwaysSound(disk.trace, |old(disk.trace)|, lay, all)
      invariant Ready(disk.s, lay, heads, temporaries)
      invariant Gathered(disk.s, s0, lay, objects, k, next, grounded)
      invariant StagingFree(disk.s, lay, names, k)
      invariant grounded ==> Grounded(disk.s, objects)
      invariant OnlyStagingLoose(s0, disk.s, lay)
      invariant k > 0 ==> Now(disk.s, lay.root) == Some(Dir)
      invariant SameObstructions(s0, disk.s, lay, objects)
      invariant ReadHead(disk.s, lay) == ReadHead(s0, lay)
      invariant Unobstructed(s0, lay, objects, k)
    {
      ghost var s := disk.s;
      ghost var before := disk.trace;
      NotEmptyPath(lay, objects[k]);
      GroundedAt(s, objects, k);
      var stored := StoreSafely(disk, lay, objects[k], names[k], heads, temporaries);
      MoreHeads(disk.trace, |before|, lay, heads, all);
      AlwaysSoundJoin(disk.trace, before, |old(disk.trace)|, lay, all);
      if stored.Err? {
        return stored;
      }
      GatheredStays(s, disk.s, s0, lay, objects, k, next, Staging(lay) + [names[k]], grounded);
      FurnishedRoot(disk.s, lay);
      LooseTransitive(s0, s, disk.s, lay);
      StagingStaysFree(s, disk.s, lay, names, k, objects[k]);
      if grounded {
        GroundedStays(s, disk.s, lay, objects);
      }
      ObstructionsStay(s0, s, disk.s, lay, objects, k, names[k], heads, temporaries);
      HeadTextStays(s, disk.s, lay, objects[k], Staging(lay) + [names[k]], heads, temporaries);
    }
    ghost var before := disk.trace;
    if grounded && ReadHead(s0, lay) == expected {
      AllGathered(disk.s, s0, lay, objects, expected, next, heads, temporaries);
    }
    ReadyToMove(disk.s, lay, heads, temporaries);
    ghost var s := disk.s;
    r := CompareAndSwapHead(disk, lay, expected, next, temporaries, heads);
    if r.Ok? {
      LooseTransitive(s0, s, disk.s, lay);
      if grounded {
        AlwaysSoundJoin(disk.trace, before, |old(disk.trace)|, lay, all);
      }
    }
  }

  lemma OnlyStagingItself(s: DiskState, lay: Layout)
    ensures OnlyStagingLoose(s, s, lay)
  {
  }

  lemma GroundedAt(s: DiskState, objects: seq<Path>, k: nat)
    requires k < |objects| && objects[k] != []
    ensures Grounded(s, objects) ==> FirmAbove(s, Parent(objects[k]))
  {
    hide FirmAbove;
  }

  lemma FurnishedRoot(s: DiskState, lay: Layout)
    requires Coherent(s) && Furnished(s, lay)
    ensures Now(s, lay.root) == Some(Dir)
  {
    hide Coherent;
    RootExists(s, lay);
  }

  lemma NotEmptyPath(lay: Layout, p: Path)
    requires ObjectPath(lay, p)
    ensures p != []
  {
  }

  ghost predicate Unobstructed(s: DiskState, lay: Layout, objects: seq<Path>, count: nat)
    requires count <= |objects|
  {
    forall j :: 0 <= j < count ==> !Obstructed(s, lay, objects[j], lay.text(objects[j]))
  }

  ghost predicate SameObstructions(s0: DiskState, s: DiskState, lay: Layout, objects: seq<Path>) {
    forall j :: 0 <= j < |objects| ==>
      (Obstructed(s, lay, objects[j], lay.text(objects[j])) <==> Obstructed(s0, lay, objects[j], lay.text(objects[j])))
  }

  lemma ObstructionsStay(
    s0: DiskState, s: DiskState, t: DiskState, lay: Layout, objects: seq<Path>, k: nat, name: string,
    heads: set<string>, temporaries: seq<string>)
    requires SameObstructions(s0, s, lay, objects) && k < |objects| && ObjectPath(lay, objects[k])
    requires forall j :: 0 <= j < |objects| ==> ObjectPath(lay, objects[j])
    requires Ready(s, lay, heads, temporaries) && Ready(t, lay, heads, temporaries)
    requires Keeps(s, t, Touches(s, lay, objects[k], Staging(lay) + [name])) && Now(s, Staging(lay) + [name]).None?
    requires Holding(t, objects[k], lay.text(objects[k]))
    requires Furnished(t, lay)
    requires !Obstructed(s, lay, objects[k], lay.text(objects[k]))
    ensures SameObstructions(s0, t, lay, objects)
  {
    hide Furnished, Keeps, Holding, Touches, Obstructed, HeadSafe, HeadSettled, FreshNames, FilesFlushed,
      Coherent, Plain;
    forall j | 0 <= j < |objects|
      ensures Obstructed(t, lay, objects[j], lay.text(objects[j])) <==> Obstructed(s, lay, objects[j], lay.text(objects[j]))
    {
      ObstructionStays(s, t, lay, objects[k], Staging(lay) + [name], objects[j]);
    }
  }

  lemma ObstructionStays(s: DiskState, t: DiskState, lay: Layout, target: Path, temp: Path, p: Path)
    requires ObjectPath(lay, target) && ObjectPath(lay, p) && Tidy(s, lay) && Tidy(t, lay)
    requires |temp| == |lay.root| + 2 && Parent(temp) == Staging(lay) && Now(s, temp).None?
    requires Keeps(s, t, Touches(s, lay, target, temp))
    requires Holding(t, target, lay.text(target)) && Furnished(t, lay)
    requires !Obstructed(s, lay, target, lay.text(target))
    ensures Obstructed(t, lay, p, lay.text(p)) <==> Obstructed(s, lay, p, lay.text(p))
  {
    hide Keeps, Touches, Coherent, FilesFlushed, Missing, Blocked, Taken;
    StandsInDirectory(t, target);
    NoNewFiles(s, t, lay, target, temp, AtRoot(lay, "packs"));
    NoNewFiles(s, t, lay, target, temp, AtRoot(lay, "manifests"));
    ParentIsPlain(lay, p);
    NoNewFiles(s, t, lay, target, temp, Parent(p));
    TakenStays(s, t, lay, target, temp, p);
  }

  lemma TouchedDirectory(s: DiskState, t: DiskState, lay: Layout, target: Path, temp: Path, q: Path)
    requires ObjectPath(lay, target) && Coherent(t) && q in Touches(s, lay, target, temp)
    requires Now(t, Parent(target)) == Some(Dir) && Furnished(t, lay)
    requires q != Staging(lay) && q != temp && q != target
    ensures Now(s, q).None? && Now(t, q) == Some(Dir)
  {
    hide Missing, Coherent;
    if q in Missing(s, AtRoot(lay, "packs")) {
      MissingIsAbsent(s, AtRoot(lay, "packs"), q);
      PrefixExists(t, AtRoot(lay, "packs"), |q|);
    } else if q in Missing(s, AtRoot(lay, "manifests")) {
      MissingIsAbsent(s, AtRoot(lay, "manifests"), q);
      PrefixExists(t, AtRoot(lay, "manifests"), |q|);
    } else {
      MissingIsAbsent(s, Parent(target), q);
      PrefixExists(t, Parent(target), |q|);
    }
  }

  lemma NoNewFiles(s: DiskState, t: DiskState, lay: Layout, target: Path, temp: Path, path: Path)
    requires ObjectPath(lay, target) && Coherent(t) && |temp| == |lay.root| + 2 && Parent(temp) == Staging(lay)
    requires Keeps(s, t, Touches(s, lay, target, temp)) && Now(t, Parent(target)) == Some(Dir) && Furnished(t, lay)
    requires ObjectDir(lay, path)
    ensures Blocked(s, path) <==> Blocked(t, path)
  {
    hide Keeps, Touches, Coherent, Missing, Blocked, Furnished;
    var touched := Touches(s, lay, target, temp);
    forall k: nat | k <= |path| && path[..k] in touched
      ensures !IsFileAt(s, path[..k]) && !IsFileAt(t, path[..k])
    {
      StagingAside(lay, path, temp, k);
      TouchedDirectory(s, t, lay, target, temp, path[..k]);
    }
    BlockedSame(s, t, touched, path);
  }

  lemma TakenStays(s: DiskState, t: DiskState, lay: Layout, target: Path, temp: Path, p: Path)
    requires ObjectPath(lay, target) && ObjectPath(lay, p) && Tidy(s, lay) && Coherent(t)
    requires |temp| == |lay.root| + 2
    requires Keeps(s, t, Touches(s, lay, target, temp)) && Holding(t, target, lay.text(target))
    requires !Taken(s, target, lay.text(target))
    ensures Taken(s, p, lay.text(p)) <==> Taken(t, p, lay.text(p))
  {
    hide Keeps, Touches, FilesFlushed, Possible;
    if p == target {
      assert HoldsText(t, Now(t, target), lay.text(target));
    } else {
      ObjectUntouched(s, lay, target, temp, p);
      TakenSame(s, t, Touches(s, lay, target, temp), lay, p, lay.text(p));
    }
  }

  lemma ObjectUntouched(s: DiskState, lay: Layout, target: Path, temp: Path, p: Path)
    requires ObjectPath(lay, target) && ObjectPath(lay, p) && p != target && |temp| == |lay.root| + 2
    ensures p !in Touches(s, lay, target, temp)
  {
    hide Missing;
    if p in Missing(s, AtRoot(lay, "packs")) {
      MissingIsAbsent(s, AtRoot(lay, "packs"), p);
    }
    if p in Missing(s, AtRoot(lay, "manifests")) {
      MissingIsAbsent(s, AtRoot(lay, "manifests"), p);
    }
    if p in Missing(s, Parent(target)) {
      MissingIsAbsent(s, Parent(target), p);
    }
  }

  lemma HeadTextStays(
    s: DiskState, t: DiskState, lay: Layout, target: Path, temp: Path, heads: set<string>, temporaries: seq<string>)
    requires ObjectPath(lay, target) && |temp| == |lay.root| + 2 && Ready(s, lay, heads, temporaries)
    requires Keeps(s, t, Touches(s, lay, target, temp))
    ensures ReadHead(t, lay) == ReadHead(s, lay)
  {
    hide Touches, FilesFlushed, Complete, Coherent, Plain, FreshNames;
    var path := AtRoot(lay, "HEAD");
    RootNameUntouched(s, lay, target, temp, "HEAD");
    var v := Now(s, path);
    StillPossible(s, path);
    if v.Some? {
      var head :| head in heads && HoldsText(s, v, head) && Complete(s, lay, head);
    }
  }

  lemma MoreHeads(trace: seq<DiskState>, from: nat, lay: Layout, heads: set<string>, more: set<string>)
    requires AlwaysSound(trace, from, lay, heads) && heads <= more
    ensures AlwaysSound(trace, from, lay, more)
  {
    hide HoldsText, Complete, Possible, Coherent, FilesFlushed, Plain, HeadSettled;
    forall i | from <= i < |trace|
      ensures Sound(trace[i], lay, more)
    {
      assert Sound(trace[i], lay, heads);
    }
  }

  lemma StagingStaysFree(s: DiskState, t: DiskState, lay: Layout, names: seq<string>, k: nat, target: Path)
    requires k < |names| && ObjectPath(lay, target) && StagingFree(s, lay, names, k)
    requires forall i, j :: 0 <= i < j < |names| ==> names[i] != names[j]
    requires Keeps(s, t, Touches(s, lay, target, Staging(lay) + [names[k]]))
    ensures StagingFree(t, lay, names, k + 1)
  {
    hide Keeps, Touches;
    forall j | k + 1 <= j < |names|
      ensures Now(t, Staging(lay) + [names[j]]).None?
    {
      StagingNameUntouched(s, lay, target, names[k], names[j]);
      KeepsNames(s, t, Touches(s, lay, target, Staging(lay) + [names[k]]), Staging(lay) + [names[j]]);
    }
  }

  lemma AllGathered(
    s: DiskState, s0: DiskState, lay: Layout, objects: seq<Path>, expected: Option<string>, next: string,
    heads: set<string>, temporaries: seq<string>)
    requires Gathered(s, s0, lay, objects, |objects|, next, true) && Ready(s0, lay, heads, temporaries)
    requires objects != [] && ObjectPath(lay, objects[0])
    requires forall p :: p in lay.needs(next) ==> p in objects || p in Needed(lay, expected)
    requires ReadHead(s0, lay) == expected
    ensures Based(s, lay, next)
  {
    hide FirmFile, Sound, FreshNames, Needed, FirmDirs;
    HeadNeedsAreFirm(s0, lay, heads);
    forall p | p in lay.needs(next)
      ensures FirmFile(s, p, lay.text(p))
    {
      if p in objects {
        var j :| 0 <= j < |objects| && objects[j] == p;
        assert FirmFile(s, objects[j], lay.text(objects[j]));
      }
    }
    FirmRoot(s, lay, objects[0], lay.text(objects[0]));
  }

  lemma ReadyToMove(s: DiskState, lay: Layout, heads: set<string>, temporaries: seq<string>)
    requires Ready(s, lay, heads, temporaries)
    ensures Sound(s, lay, heads) && FreshNames(s, lay, temporaries)
  {
    hide Sound;
  }

  // ---------------------------------------------------------------------------
  // After the restart

  /** The disk that a restart finds where a crash left this file system: whatever
      is visible is durable. */
  ghost predicate RestartOf(t: DiskState, view: map<Path, Seen>) {
    && Coherent(t) && t.unsettled == map[]
    && (forall p :: p != [] ==> (p in view <==> Now(t, p).Some?))
    && (forall p :: p != [] && p in view ==>
          match view[p]
          case SeenDir => Now(t, p) == Some(Dir)
          case SeenFile(text) => HoldsText(t, Now(t, p), text))
  }

  lemma {:induction false} RestartedDirs(s: DiskState, t: DiskState, view: map<Path, Seen>, d: Path)
    requires AfterCrash(s, view) && RestartOf(t, view) && d in view && view[d].SeenDir?
    ensures FirmDirs(t, d)
  {
    if d != [] {
      RestartedDirs(s, t, view, Parent(d));
    }
  }

  lemma RestartedFile(s: DiskState, t: DiskState, view: map<Path, Seen>, p: Path, text: string)
    requires AfterCrash(s, view) && RestartOf(t, view) && p != [] && p in view && view[p] == SeenFile(text)
    ensures FirmFile(t, p, text)
  {
    hide FirmDirs;
    RestartedDirs(s, t, view, Parent(p));
    assert Possible(t, p) == {Now(t, p)};
  }

  /** A crash at any sound moment leaves a storage that the next process finds
      sound again, with no loose directory: its publication starts where the
      first one could. */
  lemma RestartIsSafe(s: DiskState, t: DiskState, view: map<Path, Seen>, lay: Layout, heads: set<string>)
    requires WellLaid(lay) && Sound(s, lay, heads) && AfterCrash(s, view) && RestartOf(t, view)
    ensures Sound(t, lay, heads) && forall path :: FirmAbove(t, path)
  {
    hide Complete, HoldsText, WellLaid, Plain, FilesFlushed, Coherent, AfterCrash;
    RestartIsTidy(s, t, view, lay);
    RestartIsPlain(s, t, view, lay);
    if AtRoot(lay, "HEAD") in view {
      CrashLeavesCompleteHead(s, view, lay, heads);
      var head :| head in heads && SurvivesWith(view, lay, head);
      RestartedHead(s, t, view, lay, head);
    }
  }

  lemma RestartIsTidy(s: DiskState, t: DiskState, view: map<Path, Seen>, lay: Layout)
    requires RestartOf(t, view)
    ensures Tidy(t, lay)
  {
    hide Coherent;
  }

  lemma RestartIsPlain(s: DiskState, t: DiskState, view: map<Path, Seen>, lay: Layout)
    requires Plain(s, lay) && AfterCrash(s, view) && RestartOf(t, view)
    ensures Plain(t, lay)
  {
    hide Coherent;
    forall name | name in {"FORMAT", "README.md"}
      ensures Some(Dir) !in Possible(t, AtRoot(lay, name))
    {
      var p := AtRoot(lay, name);
      if p in view {
        var v :| v in Possible(s, p) && v.Some? && SeenAs(s, v.value, view[p]);
        assert v != Some(Dir);
      }
    }
  }

  lemma RestartedHead(s: DiskState, t: DiskState, view: map<Path, Seen>, lay: Layout, head: string)
    requires WellLaid(lay) && AfterCrash(s, view) && RestartOf(t, view) && SurvivesWith(view, lay, head)
    ensures HoldsText(t, Now(t, AtRoot(lay, "HEAD")), head) && Complete(t, lay, head)
  {
    hide FirmFile;
    RestartedFile(s, t, view, AtRoot(lay, "FORMAT"), FORMAT_TEXT);
    forall p | p in lay.needs(head)
      ensures FirmFile(t, p, lay.text(p))
    {
      RestartedFile(s, t, view, p, lay.text(p));
    }
  }
  /** If a directory above one of the head's objects is loose, a crash may leave
      the durable HEAD without that object. */
  lemma LooseDirectoryLosesObject(s: DiskState, lay: Layout, head: string, p: Path, d: Path)
    requires Coherent(s) && Swapped(s, lay, head) && p in lay.needs(head)
    requires d != [] && None in Possible(s, d) && IsPrefix(d, p) && !IsPrefix(d, AtRoot(lay, "HEAD"))
    ensures exists view :: AfterCrash(s, view) && AtRoot(lay, "HEAD") in view && p !in view
    ensures !HeadSafe(s, lay, {head})
  {
    hide Coherent, HoldsText, Without, AfterCrash;
    UnflushedDirectoryMayVanish(s, d);
    var view := Without(s, d);
    HeldIsThere(s, AtRoot(lay, "HEAD"), head);
    assert AtRoot(lay, "HEAD") in view && p !in view;
    if HeadSafe(s, lay, {head}) {
      CrashLeavesCompleteHead(s, view, lay, {head});
    }
  }

  lemma HeldIsThere(s: DiskState, p: Path, text: string)
    requires HoldsText(s, Now(s, p), text)
    ensures Now(s, p).Some?
  {
  }
}
