/** Crash consistency of src/persist.rs: `replace_file_durably`,
    `create_dir_all_durable` and `flush_created_directories`. A crash may undo
    every name change whose directory was not flushed since, in any combination,
    and leaves anything in a file that was not flushed. */
module Persist {
  import opened Prelude

  type Path = seq<string>

  function Parent(p: Path): Path
    requires p != []
  {
    p[..|p| - 1]
  }

  /** `q` is `p` or one of the directories above it. */
  predicate IsPrefix(q: Path, p: Path) {
    q == p || (p != [] && IsPrefix(q, Parent(p)))
  }

  lemma {:induction false} PrefixIsShorter(q: Path, p: Path)
    requires IsPrefix(q, p)
    ensures |q| <= |p|
  {
    if q != p {
      PrefixIsShorter(q, Parent(p));
    }
  }

  // ---------------------------------------------------------------------------
  // Disks

  datatype Node = File(inode: nat) | Dir

  /** The names as they are, the values that an unflushed name may have after a
      crash, and the file contents with the flushed inodes. */
  datatype DiskState = DiskState(
    names: map<Path, Node>,
    unsettled: map<Path, set<Option<Node>>>,
    contents: map<nat, string>,
    flushed: set<nat>,
    nextInode: nat)

  function Now(s: DiskState, p: Path): Option<Node> {
    if p == [] then Some(Dir) else if p in s.names then Some(s.names[p]) else None
  }

  /** What a crash may leave under a name. */
  function Possible(s: DiskState, p: Path): set<Option<Node>> {
    if p != [] && p in s.unsettled then s.unsettled[p] else {Now(s, p)}
  }

  function Bind(s: DiskState, p: Path, v: Option<Node>): DiskState {
    s.(names := if v.Some? then s.names[p := v.value] else s.names - {p},
       unsettled := s.unsettled[p := Possible(s, p) + {v}])
  }

  function Create(s: DiskState, p: Path): DiskState {
    Bind(s, p, Some(File(s.nextInode))).(contents := s.contents[s.nextInode := ""], nextInode := s.nextInode + 1)
  }

  function WriteFile(s: DiskState, inode: nat, text: string): DiskState {
    s.(contents := s.contents[inode := text], flushed := s.flushed - {inode})
  }

  function SyncFile(s: DiskState, inode: nat): DiskState {
    s.(flushed := s.flushed + {inode})
  }

  function SyncDir(s: DiskState, d: Path): DiskState {
    s.(unsettled := map p | p in s.unsettled && !(p != [] && Parent(p) == d) :: s.unsettled[p])
  }

  /** Everything stands in a directory. */
  ghost predicate Rooted(s: DiskState) {
    forall p :: p != [] && Now(s, p).Some? ==> Now(s, Parent(p)) == Some(Dir)
  }

  ghost predicate Coherent(s: DiskState) {
    && Rooted(s)
    && (forall p :: Now(s, p) in Possible(s, p))
    && (forall p, v :: v in Possible(s, p) && v.Some? && v.value.File? ==> v.value.inode < s.nextInode)
    && (forall i :: i in s.flushed ==> i in s.contents && i < s.nextInode)
  }

  /** Between the two states only the touched names changed, no settled name
      became unsettled elsewhere, and flushed files kept their contents. */
  ghost predicate Keeps(s: DiskState, t: DiskState, touched: set<Path>) {
    && (forall p :: p !in touched ==> Now(t, p) == Now(s, p) && Possible(t, p) <= Possible(s, p))
    && (forall i :: i in s.flushed && i in s.contents ==> i in t.flushed && i in t.contents && t.contents[i] == s.contents[i])
    && s.nextInode <= t.nextInode
  }

  lemma KeepsTransitive(s: DiskState, t: DiskState, u: DiskState, touched: set<Path>)
    requires Keeps(s, t, touched) && Keeps(t, u, touched)
    ensures Keeps(s, u, touched)
  {
  }

  lemma KeepsMore(s: DiskState, t: DiskState, touched: set<Path>, more: set<Path>)
    requires Keeps(s, t, touched) && touched <= more
    ensures Keeps(s, t, more)
  {
  }

  /** A file or directory gets its name in an existing directory, and a directory
      is never replaced or removed. */
  ghost predicate CanBind(s: DiskState, p: Path, v: Option<Node>) {
    && p != []
    && (v.Some? ==> Now(s, Parent(p)) == Some(Dir))
    && (v != Some(Dir) ==> Now(s, p) != Some(Dir))
  }

  lemma BindRooted(s: DiskState, p: Path, v: Option<Node>)
    requires Rooted(s) && CanBind(s, p, v)
    ensures Rooted(Bind(s, p, v))
  {
    hide Possible;
    var t := Bind(s, p, v);
    forall q | q != [] && Now(t, q).Some?
      ensures Now(t, Parent(q)) == Some(Dir)
    {
      assert Parent(q) != q;
      if q != p {
        assert Now(s, q).Some?;
      }
    }
  }

  lemma BindKeeps(s: DiskState, p: Path, v: Option<Node>)
    requires Coherent(s) && CanBind(s, p, v)
    requires v.Some? && v.value.File? ==> v.value.inode < s.nextInode
    ensures Coherent(Bind(s, p, v)) && Keeps(s, Bind(s, p, v), {p})
    ensures Now(Bind(s, p, v), p) == v && Possible(Bind(s, p, v), p) == Possible(s, p) + {v}
  {
    hide Rooted;
    var t := Bind(s, p, v);
    BindRooted(s, p, v);
    assert forall q :: q != p ==> Now(t, q) == Now(s, q) && Possible(t, q) == Possible(s, q);
  }

  lemma SameNamesRooted(s: DiskState, t: DiskState)
    requires Rooted(s) && s.names == t.names
    ensures Rooted(t)
  {
    assert forall q :: Now(t, q) == Now(s, q);
  }

  lemma CreateKeeps(s: DiskState, p: Path)
    requires p != [] && Coherent(s) && Now(s, p) != Some(Dir) && Now(s, Parent(p)) == Some(Dir)
    ensures Coherent(Create(s, p)) && Keeps(s, Create(s, p), {p})
    ensures Now(Create(s, p), p) == Some(File(s.nextInode))
    ensures Possible(Create(s, p), p) == Possible(s, p) + {Some(File(s.nextInode))}
    ensures s.nextInode !in Create(s, p).flushed && Create(s, p).nextInode == s.nextInode + 1
  {
    hide Rooted;
    var t := Create(s, p);
    BindRooted(s, p, Some(File(s.nextInode)));
    SameNamesRooted(Bind(s, p, Some(File(s.nextInode))), t);
    assert forall q :: q != p ==> Now(t, q) == Now(s, q) && Possible(t, q) == Possible(s, q);
  }

  lemma WriteKeeps(s: DiskState, inode: nat, text: string)
    requires Coherent(s) && inode !in s.flushed && inode < s.nextInode
    ensures
      var t := WriteFile(s, inode, text);
      Coherent(t) && Keeps(s, t, {}) && inode in t.contents && t.contents[inode] == text && t.nextInode == s.nextInode
  {
    hide Rooted;
    var t := WriteFile(s, inode, text);
    SameNamesRooted(s, t);
    assert forall q :: Now(t, q) == Now(s, q) && Possible(t, q) == Possible(s, q);
  }

  lemma SyncFileKeeps(s: DiskState, inode: nat)
    requires Coherent(s) && inode in s.contents && inode < s.nextInode
    ensures Coherent(SyncFile(s, inode)) && Keeps(s, SyncFile(s, inode), {})
  {
    hide Rooted;
    var t := SyncFile(s, inode);
    SameNamesRooted(s, t);
    assert forall q :: Now(t, q) == Now(s, q) && Possible(t, q) == Possible(s, q);
  }

  lemma SyncDirKeeps(s: DiskState, d: Path)
    requires Coherent(s)
    ensures Coherent(SyncDir(s, d)) && Keeps(s, SyncDir(s, d), {})
    ensures forall p :: p != [] && Parent(p) == d ==> Possible(SyncDir(s, d), p) == {Now(s, p)}
  {
    hide Rooted;
    var t := SyncDir(s, d);
    SameNamesRooted(s, t);
    assert forall q :: Now(t, q) == Now(s, q);
    forall q
      ensures Possible(t, q) <= Possible(s, q) && Now(t, q) in Possible(t, q)
    {
      assert Now(s, q) in Possible(s, q);
    }
  }

  // ---------------------------------------------------------------------------
  // What survives every crash

  /** Every directory on the way survives. */
  ghost predicate FirmDirs(s: DiskState, d: Path) {
    d == [] || (Possible(s, d) == {Some(Dir)} && FirmDirs(s, Parent(d)))
  }

  ghost predicate HoldsText(s: DiskState, v: Option<Node>, text: string) {
    v.Some? && v.value.File? && v.value.inode in s.flushed && v.value.inode in s.contents
    && s.contents[v.value.inode] == text
  }

  /** The file survives with this text. */
  ghost predicate FirmFile(s: DiskState, p: Path, text: string) {
    && p != [] && FirmDirs(s, Parent(p))
    && forall v :: v in Possible(s, p) ==> HoldsText(s, v, text)
  }

  lemma {:induction false} FirmDirsStay(s: DiskState, t: DiskState, touched: set<Path>, d: Path)
    requires FirmDirs(s, d) && Keeps(s, t, touched) && Coherent(t)
    requires forall q :: q in touched ==> !IsPrefix(q, d)
    ensures FirmDirs(t, d)
  {
    if d != [] {
      assert IsPrefix(d, d);
      assert Now(t, d) in Possible(t, d);
      FirmDirsStay(s, t, touched, Parent(d));
    }
  }

  lemma FirmFileStays(s: DiskState, t: DiskState, touched: set<Path>, p: Path, text: string)
    requires FirmFile(s, p, text) && Keeps(s, t, touched) && Coherent(t)
    requires forall q :: q in touched ==> !IsPrefix(q, p)
    ensures FirmFile(t, p, text)
  {
    assert IsPrefix(p, p);
    FirmDirsStay(s, t, touched, Parent(p));
    forall v | v in Possible(t, p)
      ensures HoldsText(t, v, text)
    {
      assert HoldsText(s, v, text);
    }
  }

  lemma {:induction false} AbsentIsNoPrefix(s: DiskState, q: Path, d: Path)
    requires Coherent(s) && Now(s, q).None? && FirmDirs(s, d)
    ensures !IsPrefix(q, d)
  {
    if d != [] {
      AbsentIsNoPrefix(s, q, Parent(d));
      assert Now(s, d) in Possible(s, d);
    }
  }

  /** A name that does not exist now is not on the way to a firm file. */
  lemma AbsentIsAside(s: DiskState, q: Path, p: Path, text: string)
    requires Coherent(s) && Now(s, q).None? && FirmFile(s, p, text)
    ensures !IsPrefix(q, p)
  {
    AbsentIsNoPrefix(s, q, Parent(p));
    assert Now(s, p) in Possible(s, p);
    assert HoldsText(s, Now(s, p), text);
  }

  // ---------------------------------------------------------------------------
  // After a crash

  datatype Seen = SeenDir | SeenFile(text: string)

  /** A file system that a crash in this state may leave: each name has one of
      its possible values, its directory survived too, and flushed files have
      their contents. */
  ghost predicate AfterCrash(s: DiskState, view: map<Path, Seen>) {
    && (forall p :: p in view && p != [] ==>
          && (p == [] || (Parent(p) in view && view[Parent(p)].SeenDir?))
          && exists v :: v in Possible(s, p) && v.Some? && SeenAs(s, v.value, view[p]))
    && [] in view && view[[]].SeenDir?
    && (forall p :: p != [] && p !in view ==>
          None in Possible(s, p) || Parent(p) !in view || !view[Parent(p)].SeenDir?)
  }

  ghost predicate SeenAs(s: DiskState, node: Node, seen: Seen) {
    match node
    case Dir => seen.SeenDir?
    case File(i) => seen.SeenFile? && (i in s.flushed && i in s.contents ==> seen.text == s.contents[i])
  }

  lemma {:induction false} FirmDirsSurvive(s: DiskState, view: map<Path, Seen>, d: Path)
    requires AfterCrash(s, view) && FirmDirs(s, d)
    ensures d in view && view[d].SeenDir?
  {
    if d != [] {
      FirmDirsSurvive(s, view, Parent(d));
    }
  }

  lemma FirmFileSurvives(s: DiskState, view: map<Path, Seen>, p: Path, text: string)
    requires AfterCrash(s, view) && FirmFile(s, p, text)
    ensures p in view && view[p] == SeenFile(text)
  {
    FirmDirsSurvive(s, view, Parent(p));
    assert !HoldsText(s, None, text);
  }

  // ---------------------------------------------------------------------------
  // The disk as the code uses it

  class Disk {
    var s: DiskState
    /** Every state so far: each is a point where a crash may happen. */
    ghost var trace: seq<DiskState>

    constructor (initial: DiskState)
      ensures s == initial && trace == [initial]
    {
      s := initial;
      trace := [initial];
    }

    /** One file system call. */
    method Do(next: DiskState)
      modifies this
      ensures s == next && trace == old(trace) + [next]
    {
      s := next;
      trace := trace + [next];
    }
  }

  /** Every state since a point in the trace is coherent and differs from the
      starting state only in the touched names. */
  ghost predicate Traced(trace: seq<DiskState>, from: nat, s: DiskState, touched: set<Path>) {
    from <= |trace| && forall i :: from <= i < |trace| ==> Coherent(trace[i]) && Keeps(s, trace[i], touched)
  }

  lemma TracedMore(trace: seq<DiskState>, from: nat, s: DiskState, touched: set<Path>, more: set<Path>)
    requires Traced(trace, from, s, touched) && touched <= more
    ensures Traced(trace, from, s, more)
  {
    hide Keeps, Coherent;
    forall i | from <= i < |trace|
      ensures Keeps(s, trace[i], more)
    {
      KeepsMore(s, trace[i], touched, more);
    }
  }

  /** Two stretches of one trace make one stretch. */
  lemma TracedJoin(
    trace: seq<DiskState>, from: nat, middle: nat, s: DiskState, t: DiskState, touched: set<Path>)
    requires from <= middle <= |trace|
    requires Traced(trace[..middle], from, s, touched) && Keeps(s, t, touched)
    requires Traced(trace, middle, t, touched)
    ensures Traced(trace, from, s, touched)
  {
    hide Keeps, Coherent;
    forall i | from <= i < |trace|
      ensures Coherent(trace[i]) && Keeps(s, trace[i], touched)
    {
      if i < middle {
        assert trace[..middle][i] == trace[i];
      } else {
        KeepsTransitive(s, t, trace[i], touched);
      }
    }
  }

  // ---------------------------------------------------------------------------
  // Replacing a file

  /** The destination is as it was, or it holds the complete new text and a crash
      leaves that or what it would have left before. */
  ghost predicate Between(s: DiskState, t: DiskState, dest: Path, text: string) {
    || (Now(t, dest) == Now(s, dest) && Possible(t, dest) <= Possible(s, dest))
    || (&& HoldsText(t, Now(t, dest), text)
        && forall v :: v in Possible(t, dest) ==> v in Possible(s, dest) || HoldsText(t, v, text))
  }

  ghost predicate Replacing(trace: seq<DiskState>, from: nat, s: DiskState, dest: Path, text: string) {
    forall i :: from <= i < |trace| ==> Between(s, trace[i], dest, text)
  }

  /** `replace_file_durably`: exclusive temporary, write, flush, rename, flush
      the directory. */
  method ReplaceFileDurably(disk: Disk, directory: Path, temporary: string, name: string, text: string)
    requires Coherent(disk.s) && temporary != name && Now(disk.s, directory) == Some(Dir)
    requires Now(disk.s, directory + [temporary]).None? && Now(disk.s, directory + [name]) != Some(Dir)
    modifies disk
    ensures old(disk.trace) <= disk.trace && disk.trace != [] && disk.trace[|disk.trace| - 1] == disk.s
    ensures Traced(disk.trace, |old(disk.trace)|, old(disk.s), {directory + [name], directory + [temporary]})
    ensures Replacing(disk.trace, |old(disk.trace)|, old(disk.s), directory + [name], text)
    ensures Coherent(disk.s) && Keeps(old(disk.s), disk.s, {directory + [name], directory + [temporary]})
    ensures forall v :: v in Possible(disk.s, directory + [name]) ==> HoldsText(disk.s, v, text)
    ensures Possible(disk.s, directory + [name]) == {Now(disk.s, directory + [name])}
    ensures Now(disk.s, directory + [name]).Some? && Now(disk.s, directory + [name]).value.File?
    ensures Now(disk.s, directory + [temporary]).None?
  {
    hide Coherent, Keeps, Possible, Now, Create, Bind, WriteFile, SyncFile, SyncDir, Between, HoldsText;
    var dest, temp := directory + [name], directory + [temporary];
    assert dest[|directory|] == name && temp[|directory|] == temporary;
    assert Parent(dest) == directory && Parent(temp) == directory;
    ghost var s0 := disk.s;
    ghost var touched := {dest, temp};
    var inode := disk.s.nextInode;
    CreateKeeps(s0, temp);
    KeepsMore(s0, Create(s0, temp), {temp}, touched);
    KeepsNames(s0, Create(s0, temp), {temp}, directory);
    disk.Do(Create(disk.s, temp));
    ghost var s1 := disk.s;
    WriteKeeps(s1, inode, text);
    ExtendKeeps(s0, s1, WriteFile(s1, inode, text), {}, touched);
    disk.Do(WriteFile(disk.s, inode, text));
    ghost var s2 := disk.s;
    SyncFileKeeps(s2, inode);
    ExtendKeeps(s0, s2, SyncFile(s2, inode), {}, touched);
    disk.Do(SyncFile(disk.s, inode));
    ghost var s3 := disk.s;
    FlushedHolds(s2, inode, text);
    SameNames(s1, s2, s3, inode, text);
    KeepsNames(s0, s1, {temp}, dest);
    assert Between(s0, s1, dest, text) && Between(s0, s2, dest, text) && Between(s0, s3, dest, text) by {
      Unreplaced(s0, s1, dest, text);
      Unreplaced(s0, s2, dest, text);
      Unreplaced(s0, s3, dest, text);
    }
    // rename
    BindKeeps(s3, dest, Some(File(inode)));
    ghost var half := Bind(s3, dest, Some(File(inode)));
    KeepsNames(s3, half, {dest}, temp);
    BindKeeps(half, temp, None);
    ExtendKeeps(s0, s3, half, {dest}, touched);
    ExtendKeeps(s0, half, Bind(half, temp, None), {temp}, touched);
    disk.Do(Bind(Bind(disk.s, dest, Some(File(inode))), temp, None));
    ghost var s4 := disk.s;
    RenamedHolds(s3, inode, text, dest, temp);
    Replaced(s0, s4, dest, inode, text);
    SyncDirKeeps(s4, directory);
    ExtendKeeps(s0, s4, SyncDir(s4, directory), {}, touched);
    disk.Do(SyncDir(disk.s, directory));
    SyncedHolds(s4, directory, dest, temp, inode, text);
    Replaced(s0, disk.s, dest, inode, text);
  }

  lemma Unreplaced(s: DiskState, t: DiskState, dest: Path, text: string)
    requires Now(t, dest) == Now(s, dest) && Possible(t, dest) <= Possible(s, dest)
    ensures Between(s, t, dest, text)
  {
  }

  lemma Replaced(s: DiskState, t: DiskState, dest: Path, inode: nat, text: string)
    requires Now(t, dest) == Some(File(inode)) && HoldsText(t, Some(File(inode)), text)
    requires Possible(t, dest) <= Possible(s, dest) + {Some(File(inode))}
    ensures Between(s, t, dest, text)
  {
  }

  lemma ExtendKeeps(s: DiskState, t: DiskState, u: DiskState, step: set<Path>, touched: set<Path>)
    requires Keeps(s, t, touched) && Keeps(t, u, step) && step <= touched
    ensures Keeps(s, u, touched)
  {
    hide Keeps;
    KeepsMore(t, u, step, touched);
    KeepsTransitive(s, t, u, touched);
  }

  lemma FlushedHolds(s: DiskState, inode: nat, text: string)
    requires inode in s.contents && s.contents[inode] == text
    ensures HoldsText(SyncFile(s, inode), Some(File(inode)), text)
  {
  }

  lemma SameNames(s1: DiskState, s2: DiskState, s3: DiskState, inode: nat, text: string)
    requires s2 == WriteFile(s1, inode, text) && s3 == SyncFile(s2, inode)
    ensures forall p :: Possible(s2, p) == Possible(s1, p) && Possible(s3, p) == Possible(s1, p)
    ensures forall p :: Now(s2, p) == Now(s1, p) && Now(s3, p) == Now(s1, p)
    ensures s3.nextInode == s1.nextInode
  {
    forall p
      ensures Now(s2, p) == Now(s1, p) && Now(s3, p) == Now(s1, p)
      ensures Possible(s2, p) == Possible(s1, p) && Possible(s3, p) == Possible(s1, p)
    {
    }
  }

  lemma KeepsNames(s: DiskState, t: DiskState, touched: set<Path>, p: Path)
    requires Keeps(s, t, touched) && p !in touched
    ensures Now(t, p) == Now(s, p) && Possible(t, p) <= Possible(s, p)
  {
  }

  lemma RenamedHolds(s3: DiskState, inode: nat, text: string, dest: Path, temp: Path)
    requires Coherent(s3) && inode < s3.nextInode && dest != temp && dest != [] && temp != []
    requires HoldsText(s3, Some(File(inode)), text)
    ensures
      var s4 := Bind(Bind(s3, dest, Some(File(inode))), temp, None);
      && Possible(s4, dest) == Possible(s3, dest) + {Some(File(inode))}
      && HoldsText(s4, Some(File(inode)), text)
      && Now(s4, dest) == Some(File(inode)) && Now(s4, temp) == None
  {
  }

  lemma SyncedHolds(s4: DiskState, directory: Path, dest: Path, temp: Path, inode: nat, text: string)
    requires Coherent(s4) && dest != [] && temp != [] && Parent(dest) == directory && Parent(temp) == directory
    requires Now(s4, dest) == Some(File(inode)) && Now(s4, temp) == None
    requires HoldsText(s4, Some(File(inode)), text)
    ensures
      var s5 := SyncDir(s4, directory);
      && (forall v :: v in Possible(s5, dest) ==> HoldsText(s5, v, text))
      && Possible(s5, dest) == {Now(s5, dest)}
      && Now(s5, dest) == Some(File(inode)) && Now(s5, temp) == None
      && HoldsText(s5, Some(File(inode)), text)
  {
    SyncDirKeeps(s4, directory);
    var s5 := SyncDir(s4, directory);
    assert Possible(s5, dest) == {Some(File(inode))};
  }

  // ---------------------------------------------------------------------------
  // Creating directories

  /** A directory that a crash may lose. */
  ghost predicate Loose(s: DiskState, d: Path) {
    Now(s, d) == Some(Dir) && Possible(s, d) != {Some(Dir)}
  }

  /** No directory on the path that exists is loose. */
  ghost predicate FirmAbove(s: DiskState, path: Path) {
    forall k :: 0 <= k <= |path| ==> !Loose(s, path[..k])
  }

  /** What exists survives every crash if and only if nothing above it is loose. */
  lemma {:induction false} FirmIffNoneLoose(s: DiskState, d: Path)
    requires Coherent(s) && Now(s, d) == Some(Dir)
    ensures FirmDirs(s, d) <==> FirmAbove(s, d)
  {
    if d != [] {
      var above := Parent(d);
      FirmIffNoneLoose(s, above);
      assert d[..|d|] == d;
      forall k | 0 <= k <= |d|
        ensures Loose(s, d[..k]) <==> (if k == |d| then Loose(s, d) else Loose(s, above[..k]))
      {
        assert k < |d| ==> d[..k] == above[..k];
      }
      if FirmAbove(s, d) {
        assert !Loose(s, d[..|d|]);
        forall k | 0 <= k <= |above|
          ensures !Loose(s, above[..k])
        {
          assert !Loose(s, d[..k]);
        }
      }
    }
  }

  ghost predicate NoNewLoose(s: DiskState, t: DiskState) {
    forall d :: Loose(t, d) ==> Loose(s, d)
  }

  /** Loose directories stay loose, except those in the flushed directories. */
  ghost predicate StaysLoose(s: DiskState, t: DiskState, synced: set<Path>) {
    forall d :: Loose(s, d) && d != [] && Parent(d) !in synced ==> Loose(t, d)
  }

  /** Names in the flushed directories are what a crash leaves. */
  ghost predicate Settled(s: DiskState, synced: set<Path>) {
    forall p :: p != [] && Parent(p) in synced ==> Possible(s, p) == {Now(s, p)}
  }

  lemma StaysLooseTransitive(s: DiskState, t: DiskState, u: DiskState, synced: set<Path>)
    requires StaysLoose(s, t, synced) && StaysLoose(t, u, synced)
    ensures StaysLoose(s, u, synced)
  {
    hide Loose;
  }

  lemma StaysLooseMore(s: DiskState, t: DiskState, synced: set<Path>, more: set<Path>)
    requires StaysLoose(s, t, synced) && synced <= more
    ensures StaysLoose(s, t, more)
  {
    hide Loose;
  }

  lemma BindStaysLoose(s: DiskState, p: Path, v: Option<Node>)
    requires Now(s, p) != Some(Dir)
    ensures StaysLoose(s, Bind(s, p, v), {})
  {
    var t := Bind(s, p, v);
    assert forall q :: q != p ==> Now(t, q) == Now(s, q) && Possible(t, q) == Possible(s, q);
  }

  lemma SyncStaysLoose(s: DiskState, d: Path, settled: set<Path>)
    requires Coherent(s) && Settled(s, settled)
    ensures StaysLoose(s, SyncDir(s, d), {d}) && Settled(SyncDir(s, d), settled + {d})
  {
    hide Coherent;
    SyncDirKeeps(s, d);
    var t := SyncDir(s, d);
    assert forall q :: Now(t, q) == Now(s, q);
    assert forall q :: q != [] && Parent(q) != d ==> Possible(t, q) == Possible(s, q);
  }

  /** Nothing was flushed: what a crash could leave, it still can. */
  ghost predicate Grows(s: DiskState, t: DiskState) {
    forall p :: Possible(s, p) <= Possible(t, p)
  }

  lemma BindGrows(s: DiskState, p: Path, v: Option<Node>)
    ensures Grows(s, Bind(s, p, v))
  {
    var t := Bind(s, p, v);
    assert forall q :: q != p ==> Now(t, q) == Now(s, q) && Possible(t, q) == Possible(s, q);
  }

  lemma CreateGrows(s: DiskState, p: Path)
    ensures Grows(s, Create(s, p))
  {
    var t := Create(s, p);
    assert forall q :: q != p ==> Now(t, q) == Now(s, q) && Possible(t, q) == Possible(s, q);
  }

  ghost predicate DirsStay(s: DiskState, t: DiskState) {
    forall d :: Now(s, d) == Some(Dir) ==> Now(t, d) == Some(Dir)
  }

  lemma GrowsStaysLoose(s: DiskState, t: DiskState)
    requires Coherent(s) && Grows(s, t) && DirsStay(s, t)
    ensures StaysLoose(s, t, {})
  {
    forall d | Loose(s, d)
      ensures Loose(t, d)
    {
      assert Now(s, d) in Possible(s, d);
      var v :| v in Possible(s, d) && v != Some(Dir);
      assert v in Possible(t, d);
    }
  }

  /** A path keeps its loose directories if none of them was touched or is in a
      directory that was flushed. */
  lemma SameLoose(s: DiskState, t: DiskState, touched: set<Path>, synced: set<Path>, path: Path)
    requires Coherent(t) && Keeps(s, t, touched) && StaysLoose(s, t, synced)
    requires forall k :: 0 < k <= |path| ==> path[..k] !in touched
    requires forall k :: 0 <= k < |path| ==> path[..k] !in synced
    ensures FirmAbove(t, path) <==> FirmAbove(s, path)
  {
    forall k | 0 <= k <= |path|
      ensures Loose(t, path[..k]) <==> Loose(s, path[..k])
    {
      if k > 0 {
        assert Parent(path[..k]) == path[..k - 1];
        assert Now(t, path[..k]) in Possible(t, path[..k]);
      }
    }
  }

  /** The directories of a path that do not exist. */
  ghost function Missing(s: DiskState, path: Path): set<Path> {
    set k | 0 < k <= |path| && Now(s, path[..k]).None? :: path[..k]
  }

  /** The directories that get a new directory. */
  ghost function Extended(s: DiskState, path: Path): set<Path> {
    set m | m in Missing(s, path) && m != [] :: Parent(m)
  }

  ghost predicate IsFileAt(s: DiskState, p: Path) {
    Now(s, p).Some? && Now(s, p).value.File?
  }

  /** A file stands where the path needs a directory. */
  ghost predicate Blocked(s: DiskState, path: Path) {
    exists k: nat :: k <= |path| && IsFileAt(s, path[..k])
  }

  /** `create_dir_all_durable`: create what is missing from the top down, flush
      each new directory and the deepest one that existed. It flushes nothing
      that exists above that, nor the path itself if it exists. So after success
      the whole path survives every crash if and only if none of its directories
      that existed was loose. */
  method CreateDirAllDurable(disk: Disk, path: Path) returns (r: Result<()>)
    requires Coherent(disk.s)
    modifies disk
    ensures old(disk.trace) <= disk.trace
    ensures Traced(disk.trace, |old(disk.trace)|, old(disk.s), Missing(old(disk.s), path))
    ensures Coherent(disk.s) && Keeps(old(disk.s), disk.s, Missing(old(disk.s), path))
    ensures r.Err? <==> Blocked(old(disk.s), path)
    ensures r.Err? ==> disk.s == old(disk.s)
    ensures r.Ok? ==> Now(disk.s, path) == Some(Dir)
    ensures r.Ok? ==> (FirmDirs(disk.s, path) <==> FirmAbove(old(disk.s), path))
    ensures r.Ok? ==> NoNewLoose(old(disk.s), disk.s) && Settled(disk.s, Extended(old(disk.s), path))
    ensures r.Ok? ==> StaysLoose(old(disk.s), disk.s, Extended(old(disk.s), path))
  {
    hide Coherent, Keeps, Possible, Bind, SyncDir, FirmDirs, Blocked, Loose, Missing, Extended;
    ghost var s0 := disk.s;
    KeepsItself(s0, Missing(s0, path));
    var missing: seq<Path> := [];
    var cursor := path;
    assert path[..|path|] == path;
    while Now(disk.s, cursor).None?
      invariant |cursor| <= |path| && cursor == path[..|cursor|]
      invariant |missing| == |path| - |cursor|
      invariant forall i :: 0 <= i < |missing| ==> missing[i] == path[..|path| - i] && Now(s0, missing[i]).None?
      decreases |cursor|
    {
      missing := missing + [cursor];
      cursor := Parent(cursor);
    }
    if Now(disk.s, cursor).value.File? {
      BlockedAt(s0, path, |cursor|);
      return Err({OtherIo});
    }
    NotBlocked(s0, path, cursor, missing);
    if missing == [] {
      NothingMissing(s0, path);
      FirmIffNoneLoose(s0, path);
      return Ok(());
    }
    MissingAre(s0, path, cursor, missing);
    CreateMissing(disk, path, cursor, missing);
    FlushMissing(disk, path, cursor, missing, s0, |old(disk.trace)|);
    FirmAfterwards(s0, disk.s, path, cursor, missing);
    return Ok(());
  }

  lemma BlockedAt(s: DiskState, path: Path, k: nat)
    requires k <= |path| && IsFileAt(s, path[..k])
    ensures Blocked(s, path)
  {
  }

  lemma {:induction false} AboveExists(s: DiskState, path: Path, k: nat, j: nat)
    requires Coherent(s) && j <= k <= |path| && Now(s, path[..k]) == Some(Dir)
    ensures Now(s, path[..j]) == Some(Dir)
    decreases k
  {
    if j < k {
      assert Parent(path[..k]) == path[..k - 1];
      AboveExists(s, path, k - 1, j);
    }
  }

  lemma NotBlocked(s: DiskState, path: Path, cursor: Path, missing: seq<Path>)
    requires Coherent(s)
    requires |cursor| <= |path| && cursor == path[..|cursor|] && Now(s, cursor) == Some(Dir)
    requires |missing| == |path| - |cursor|
    requires forall i :: 0 <= i < |missing| ==> missing[i] == path[..|path| - i] && Now(s, missing[i]).None?
    ensures !Blocked(s, path)
  {
    hide Coherent;
    forall k: nat | k <= |path|
      ensures !IsFileAt(s, path[..k])
    {
      if k <= |cursor| {
        AboveExists(s, path, |cursor|, k);
      } else {
        assert missing[|path| - k] == path[..k];
      }
    }
  }

  lemma KeepsItself(s: DiskState, touched: set<Path>)
    ensures Keeps(s, s, touched)
  {
  }

  lemma NothingMissing(s: DiskState, path: Path)
    requires Coherent(s) && Now(s, path) == Some(Dir)
    ensures Missing(s, path) == {} && Extended(s, path) == {}
  {
    hide Coherent;
    assert path[..|path|] == path;
    forall k | 0 < k <= |path|
      ensures Now(s, path[..k]).Some?
    {
      AboveExists(s, path, |path|, k);
    }
  }

  ghost predicate MissingPath(path: Path, cursor: Path, missing: seq<Path>) {
    && |cursor| < |path| && cursor == path[..|cursor|]
    && |missing| == |path| - |cursor|
    && forall i :: 0 <= i < |missing| ==> missing[i] == path[..|path| - i]
  }

  lemma MissingAre(s: DiskState, path: Path, cursor: Path, missing: seq<Path>)
    requires Coherent(s) && MissingPath(path, cursor, missing) && Now(s, cursor) == Some(Dir)
    requires forall i :: 0 <= i < |missing| ==> Now(s, missing[i]).None?
    ensures forall q :: q in Missing(s, path) <==> q in missing
  {
    hide Coherent;
    forall k | 0 < k <= |path|
      ensures Now(s, path[..k]).None? <==> k > |cursor|
    {
      if k <= |cursor| {
        AboveExists(s, path, |cursor|, k);
      } else {
        assert missing[|path| - k] == path[..k];
      }
    }
    forall q | q in missing
      ensures q in Missing(s, path)
    {
      var i :| 0 <= i < |missing| && missing[i] == q;
      assert q == path[..|path| - i];
    }
    forall q | q in Missing(s, path)
      ensures q in missing
    {
      var k :| 0 < k <= |path| && Now(s, path[..k]).None? && q == path[..k];
      assert missing[|path| - k] == q;
    }
  }

  /** The `create_dir` loop, topmost first. */
  method CreateMissing(disk: Disk, path: Path, cursor: Path, missing: seq<Path>)
    requires Coherent(disk.s) && MissingPath(path, cursor, missing) && Now(disk.s, cursor) == Some(Dir)
    requires forall q :: q in Missing(disk.s, path) <==> q in missing
    requires forall i :: 0 <= i < |missing| ==> Now(disk.s, missing[i]).None?
    modifies disk
    ensures old(disk.trace) <= disk.trace
    ensures Traced(disk.trace, |old(disk.trace)|, old(disk.s), Missing(old(disk.s), path))
    ensures Coherent(disk.s) && Keeps(old(disk.s), disk.s, Missing(old(disk.s), path))
    ensures forall m :: 0 <= m < |missing| ==> Now(disk.s, missing[m]) == Some(Dir)
    ensures StaysLoose(old(disk.s), disk.s, {})
  {
    hide Coherent, Keeps, Possible, Bind, Missing, Loose, Now;
    ghost var s0 := disk.s;
    ghost var touched := Missing(s0, path);
    KeepsItself(s0, touched);
    var i := |missing|;
    while i > 0
      invariant 0 <= i <= |missing|
      invariant old(disk.trace) <= disk.trace
      invariant Traced(disk.trace, |old(disk.trace)|, s0, touched)
      invariant Coherent(disk.s) && Keeps(s0, disk.s, touched)
      invariant Now(disk.s, cursor) == Some(Dir)
      invariant forall m :: i <= m < |missing| ==> Now(disk.s, missing[m]) == Some(Dir)
      invariant forall m :: 0 <= m < i ==> Now(disk.s, missing[m]).None?
      invariant StaysLoose(s0, disk.s, {})
    {
      i := i - 1;
      ghost var s := disk.s;
      assert missing[i] == path[..|path| - i];
      assert Parent(missing[i]) == path[..|path| - i - 1] == if i + 1 < |missing| then missing[i + 1] else cursor;
      BindKeeps(s, missing[i], Some(Dir));
      BindStaysLoose(s, missing[i], Some(Dir));
      StaysLooseTransitive(s0, s, Bind(s, missing[i], Some(Dir)), {});
      assert missing[i] in missing;
      ExtendKeeps(s0, s, Bind(s, missing[i], Some(Dir)), {missing[i]}, touched);
      forall m | 0 <= m < |missing| && m != i
        ensures Now(Bind(s, missing[i], Some(Dir)), missing[m]) == Now(s, missing[m])
      {
        assert missing[m] == path[..|path| - m];
        KeepsNames(s, Bind(s, missing[i], Some(Dir)), {missing[i]}, missing[m]);
      }
      KeepsNames(s, Bind(s, missing[i], Some(Dir)), {missing[i]}, cursor);
      disk.Do(Bind(disk.s, missing[i], Some(Dir)));
    }
  }

  /** `flush_created_directories` */
  method FlushMissing(disk: Disk, path: Path, cursor: Path, missing: seq<Path>, ghost s0: DiskState, ghost from: nat)
    requires Coherent(disk.s) && MissingPath(path, cursor, missing)
    requires Keeps(s0, disk.s, Missing(s0, path)) && StaysLoose(s0, disk.s, {})
    requires forall m :: 0 <= m < |missing| ==> Now(disk.s, missing[m]) == Some(Dir)
    requires Traced(disk.trace, from, s0, Missing(s0, path))
    modifies disk
    ensures old(disk.trace) <= disk.trace
    ensures Traced(disk.trace, from, s0, Missing(s0, path))
    ensures Coherent(disk.s) && Keeps(s0, disk.s, Missing(s0, path))
    ensures forall m :: 0 <= m < |missing| ==> Now(disk.s, missing[m]) == Some(Dir)
    ensures Settled(disk.s, SetOf(missing) + {cursor})
    ensures StaysLoose(s0, disk.s, SetOf(missing) + {cursor})
  {
    hide Coherent, Keeps, Possible, SyncDir, Missing, Settled, StaysLoose;
    ghost var touched := Missing(s0, path);
    NothingSettled(disk.s);
    assert SetOf(missing[..0]) == {};
    for i := 0 to |missing|
      invariant old(disk.trace) <= disk.trace
      invariant Traced(disk.trace, from, s0, touched)
      invariant Coherent(disk.s) && Keeps(s0, disk.s, touched)
      invariant forall m :: 0 <= m < |missing| ==> Now(disk.s, missing[m]) == Some(Dir)
      invariant Settled(disk.s, SetOf(missing[..i])) && StaysLoose(s0, disk.s, SetOf(missing[..i]))
    {
      SyncMissing(disk.s, s0, touched, missing, missing[i], SetOf(missing[..i]));
      assert SetOf(missing[..i + 1]) == SetOf(missing[..i]) + {missing[i]};
      disk.Do(SyncDir(disk.s, missing[i]));
    }
    assert missing[..|missing|] == missing;
    SyncMissing(disk.s, s0, touched, missing, cursor, SetOf(missing));
    disk.Do(SyncDir(disk.s, cursor));
  }

  ghost function SetOf(paths: seq<Path>): set<Path> {
    set p | p in paths
  }

  lemma NothingSettled(s: DiskState)
    ensures Settled(s, {})
  {
  }

  lemma SyncMissing(s: DiskState, s0: DiskState, touched: set<Path>, missing: seq<Path>, d: Path, synced: set<Path>)
    requires Coherent(s) && Keeps(s0, s, touched)
    requires Settled(s, synced) && StaysLoose(s0, s, synced)
    requires forall m :: 0 <= m < |missing| ==> Now(s, missing[m]) == Some(Dir)
    ensures
      var t := SyncDir(s, d);
      && Coherent(t) && Keeps(s0, t, touched)
      && (forall m :: 0 <= m < |missing| ==> Now(t, missing[m]) == Some(Dir))
      && Settled(t, synced + {d}) && StaysLoose(s0, t, synced + {d})
  {
    hide Coherent, Keeps, Possible, SyncDir, Settled, StaysLoose;
    SyncDirKeeps(s, d);
    SyncStaysLoose(s, d, synced);
    var t := SyncDir(s, d);
    ExtendKeeps(s0, s, t, {}, touched);
    StaysLooseMore(s, t, {d}, synced + {d});
    StaysLooseMore(s0, s, synced, synced + {d});
    StaysLooseTransitive(s0, s, t, synced + {d});
    forall m | 0 <= m < |missing|
      ensures Now(t, missing[m]) == Some(Dir)
    {
      KeepsNames(s, t, {}, missing[m]);
    }
  }

  lemma StillPossible(s: DiskState, p: Path)
    requires Coherent(s)
    ensures Now(s, p) in Possible(s, p)
  {
  }

  lemma FirmAfterwards(s0: DiskState, s: DiskState, path: Path, cursor: Path, missing: seq<Path>)
    requires Coherent(s0) && Coherent(s) && Keeps(s0, s, Missing(s0, path))
    requires MissingPath(path, cursor, missing) && Now(s0, cursor) == Some(Dir)
    requires forall q :: q in Missing(s0, path) <==> q in missing
    requires forall m :: 0 <= m < |missing| ==> Now(s0, missing[m]).None? && Now(s, missing[m]) == Some(Dir)
    requires Settled(s, SetOf(missing) + {cursor}) && StaysLoose(s0, s, SetOf(missing) + {cursor})
    ensures Now(s, path) == Some(Dir) && NoNewLoose(s0, s)
    ensures FirmDirs(s, path) <==> FirmAbove(s0, path)
    ensures Settled(s, Extended(s0, path)) && StaysLoose(s0, s, Extended(s0, path))
  {
    hide Coherent, Keeps, Possible, Missing, Extended, FirmDirs, Settled, StaysLoose, Loose, Now;
    assert missing[0] == path[..|path|] == path;
    OnlyExtended(s0, s, path, cursor, missing);
    MissingAreFirm(s, path, cursor, missing);
    OnlyOldLoose(s0, s, path, missing);
    FirmIffNoneLoose(s, path);
    SameLooseAbove(s0, s, path, cursor, missing);
  }

  /** The extended directories are the new ones, except the last, and the deepest
      one that existed. */
  lemma ExtendedAre(s: DiskState, path: Path, cursor: Path, missing: seq<Path>)
    requires MissingPath(path, cursor, missing)
    requires forall q :: q in Missing(s, path) <==> q in missing
    ensures cursor in Extended(s, path)
    ensures forall q :: q in Extended(s, path) ==> q in SetOf(missing) + {cursor} && |q| >= |cursor|
  {
    hide Missing;
    var last := missing[|missing| - 1];
    assert last == path[..|path| - (|missing| - 1)];
    assert last in missing && Parent(last) == cursor;
    forall q | q in Extended(s, path)
      ensures q in SetOf(missing) + {cursor} && |q| >= |cursor|
    {
      var m :| m in Missing(s, path) && m != [] && q == Parent(m);
      var i :| 0 <= i < |missing| && missing[i] == m;
      assert q == path[..|path| - i - 1];
      assert q == if i + 1 < |missing| then missing[i + 1] else cursor;
    }
  }

  /** New directories have no other entries, so only the extended ones matter. */
  lemma OnlyExtended(s0: DiskState, s: DiskState, path: Path, cursor: Path, missing: seq<Path>)
    requires Coherent(s0) && MissingPath(path, cursor, missing)
    requires forall q :: q in Missing(s0, path) <==> q in missing
    requires forall m :: 0 <= m < |missing| ==> Now(s0, missing[m]).None?
    requires Settled(s, SetOf(missing) + {cursor}) && StaysLoose(s0, s, SetOf(missing) + {cursor})
    ensures Settled(s, Extended(s0, path)) && StaysLoose(s0, s, Extended(s0, path))
  {
    hide Possible, Extended, Missing;
    ExtendedAre(s0, path, cursor, missing);
    forall d | Loose(s0, d) && d != [] && Parent(d) !in Extended(s0, path)
      ensures Loose(s, d)
    {
      assert Now(s0, Parent(d)) == Some(Dir);
      assert Parent(d) !in missing;
    }
  }

  lemma MissingAreFirm(s: DiskState, path: Path, cursor: Path, missing: seq<Path>)
    requires MissingPath(path, cursor, missing) && Settled(s, SetOf(missing) + {cursor})
    requires forall m :: 0 <= m < |missing| ==> Now(s, missing[m]) == Some(Dir)
    ensures forall m :: 0 <= m < |missing| ==> !Loose(s, missing[m])
  {
    hide Possible, Now;
    forall m | 0 <= m < |missing|
      ensures Possible(s, missing[m]) == {Some(Dir)}
    {
      assert missing[m] == path[..|path| - m];
      assert Parent(missing[m]) == path[..|path| - m - 1];
      assert Parent(missing[m]) == if m + 1 < |missing| then missing[m + 1] else cursor;
    }
  }

  lemma OnlyOldLoose(s0: DiskState, s: DiskState, path: Path, missing: seq<Path>)
    requires Coherent(s0) && Coherent(s) && Keeps(s0, s, Missing(s0, path))
    requires forall q :: q in Missing(s0, path) <==> q in missing
    requires forall m :: 0 <= m < |missing| ==> !Loose(s, missing[m])
    ensures NoNewLoose(s0, s)
  {
    hide Missing;
    forall d | Loose(s, d)
      ensures Loose(s0, d)
    {
      assert d !in missing;
      assert d !in Missing(s0, path);
      assert Now(s, d) in Possible(s, d);
    }
  }

  lemma SameLooseAbove(s0: DiskState, s: DiskState, path: Path, cursor: Path, missing: seq<Path>)
    requires MissingPath(path, cursor, missing)
    requires forall q :: q in Missing(s0, path) <==> q in missing
    requires NoNewLoose(s0, s) && StaysLoose(s0, s, Extended(s0, path))
    requires forall m :: 0 <= m < |missing| ==> Now(s0, missing[m]).None?
    ensures FirmAbove(s, path) <==> FirmAbove(s0, path)
  {
    hide Extended, Missing;
    ExtendedAre(s0, path, cursor, missing);
    forall k | 0 <= k <= |path|
      ensures Loose(s, path[..k]) <==> Loose(s0, path[..k])
    {
      var d := path[..k];
      if k > |cursor| {
        assert missing[|path| - k] == d;
      } else if k > 0 {
        assert |Parent(d)| < |cursor|;
      }
    }
  }

  // ---------------------------------------------------------------------------
  // A process that is killed

  /** A process killed between `create_dir` and the flush leaves a directory that
      the next call takes as it is: that call succeeds, and the directory is
      still loose. */
  lemma KilledProcessLeavesLoose(s: DiskState, path: Path)
    requires Coherent(s) && path != [] && Now(s, path).None? && Now(s, Parent(path)) == Some(Dir)
    ensures
      var t := Bind(s, path, Some(Dir));
      && Coherent(t) && !Blocked(t, path) && Missing(t, path) == {}
      && None in Possible(t, path) && !FirmAbove(t, path) && !FirmDirs(t, path)
  {
    hide Coherent;
    BindKeeps(s, path, Some(Dir));
    var t := Bind(s, path, Some(Dir));
    StillPossible(s, path);
    NothingMissing(t, path);
    assert path[..|path|] == path;
    assert Loose(t, path[..|path|]);
    FirmIffNoneLoose(t, path);
    NotBlocked(t, path, path, []);
  }

  function SeenNow(s: DiskState, p: Path): Seen {
    match Now(s, p)
    case Some(File(i)) => SeenFile(if i in s.contents then s.contents[i] else "")
    case _ => SeenDir
  }

  /** Everything that exists outside one directory. */
  function Without(s: DiskState, d: Path): (view: map<Path, Seen>)
    ensures forall p :: p in view <==> (p == [] || p in s.names) && !IsPrefix(d, p)
    ensures forall p <- view :: view[p] == SeenNow(s, p)
  {
    map p | p in s.names.Keys + {[]} && !IsPrefix(d, p) :: SeenNow(s, p)
  }

  /** A crash may lose such a directory with everything in it, and nothing else:
      a HEAD that is durable beside it may then name an object that is gone. */
  lemma UnflushedDirectoryMayVanish(s: DiskState, d: Path)
    requires Coherent(s) && d != [] && None in Possible(s, d)
    ensures AfterCrash(s, Without(s, d))
    ensures forall p :: p in Without(s, d) <==> Now(s, p).Some? && !IsPrefix(d, p)
  {
    hide Coherent, Possible, SeenNow, Without;
    var view := Without(s, d);
    forall p | p in view && p != []
      ensures Parent(p) in view && view[Parent(p)].SeenDir?
      ensures exists v :: v in Possible(s, p) && v.Some? && SeenAs(s, v.value, view[p])
    {
      SeenOutside(s, d, p);
    }
    forall p | p != [] && p !in view
      ensures None in Possible(s, p) || Parent(p) !in view
    {
      StillPossible(s, p);
    }
    assert [] in view && view[[]].SeenDir? by {
      RootIsSeen(s);
    }
  }

  lemma RootIsSeen(s: DiskState)
    ensures SeenNow(s, []) == SeenDir
  {
  }

  lemma SeenOutside(s: DiskState, d: Path, p: Path)
    requires Coherent(s) && p != [] && p in s.names && !IsPrefix(d, p)
    ensures (Parent(p) == [] || Parent(p) in s.names) && !IsPrefix(d, Parent(p)) && SeenNow(s, Parent(p)) == SeenDir
    ensures Now(s, p) in Possible(s, p) && Now(s, p).Some? && SeenAs(s, Now(s, p).value, SeenNow(s, p))
  {
    hide Coherent;
    StandsInDirectory(s, p);
    StillPossible(s, p);
  }

  lemma StandsInDirectory(s: DiskState, p: Path)
    requires Coherent(s) && p != [] && Now(s, p).Some?
    ensures Now(s, Parent(p)) == Some(Dir)
  {
  }
}
