/** Carrier objects as chunk files: `ValidatingObjectStage`,
    `CarrierObjectStage`, `validated_chunk_paths`, `parse_chunk_listing`,
    `ChunkReader` and `GitChunkReader` of src/storage.rs. */
module CarrierChunks {
  import opened Prelude
  import opened Encodings

  const CHUNK: nat := 33554432
  const MAX_CHUNKS: nat := 4096
  const MAX_OBJECT: nat := 137438953472
  const MAX_MANIFEST: nat := 16777216
  const NAMES: nat := 100000000

  datatype ObjectKind = ManifestObject | PackObject

  function MaxBytes(kind: ObjectKind): (r: nat)
    ensures r <= CHUNK * MAX_CHUNKS
  {
    if kind.ManifestObject? then MAX_MANIFEST else MAX_OBJECT
  }

  /** The SHA-256 of an object. */
  datatype ObjectDigest = DigestOf(bytes: Bytes)

  // ---------------------------------------------------------------------------
  // Chunk names and their order

  function Pow10(width: nat): (p: nat)
    ensures p > 0
  {
    if width == 0 then 1 else 10 * Pow10(width - 1)
  }

  function Digits(n: nat, width: nat): (r: string)
    requires n < Pow10(width)
    ensures |r| == width
    decreases width
  {
    if width == 0 then "" else [FirstDigit(n, width)] + Digits(n % Pow10(width - 1), width - 1)
  }

  function FirstDigit(n: nat, width: nat): char
    requires width > 0 && n < Pow10(width)
  {
    LeadingDigit(n, width);
    "0123456789"[n / Pow10(width - 1)]
  }

  lemma LeadingDigit(n: nat, width: nat)
    requires width > 0 && n < Pow10(width)
    ensures 0 <= n / Pow10(width - 1) < 10
    ensures n == n / Pow10(width - 1) * Pow10(width - 1) + n % Pow10(width - 1)
  {
    QuotientBelowTen(n, Pow10(width - 1));
  }

  lemma QuotientBelowTen(n: nat, p: nat)
    requires p > 0
    ensures n < 10 * p ==> n / p < 10
  {
    if n / p > 9 {
      NextMultiple(9, n / p, p);
    }
  }

  lemma EightDigits()
    ensures Pow10(8) == NAMES
  {
    assert Pow10(2) == 100 && Pow10(4) == 10000 && Pow10(6) == 1000000;
  }

  /** `{index:08}` */
  function Name(index: nat): (r: string)
    requires index < NAMES
  {
    EightDigits();
    Digits(index, 8)
  }

  /** Byte order on names. */
  predicate Below(a: string, b: string) {
    if a == [] then b != []
    else if b == [] then false
    else a[0] < b[0] || (a[0] == b[0] && Below(a[1..], b[1..]))
  }

  lemma {:induction false} DigitsOrdered(m: nat, n: nat, width: nat)
    requires m < n < Pow10(width)
    ensures Below(Digits(m, width), Digits(n, width))
    decreases width
  {
    if width > 0 {
      var p := Pow10(width - 1);
      LeadingDigit(m, width);
      LeadingDigit(n, width);
      QuotientsOrdered(m, n, p);
      if m / p == n / p {
        DigitsOrdered(m % p, n % p, width - 1);
      } else {
        DigitBelow(m / p, n / p);
      }
      FirstDigitDecides(m, n, width);
    }
  }

  lemma FirstDigitDecides(m: nat, n: nat, width: nat)
    requires width > 0 && m < Pow10(width) && n < Pow10(width)
    ensures
      var p := Pow10(width - 1);
      var a, b := FirstDigit(m, width), FirstDigit(n, width);
      Below(Digits(m, width), Digits(n, width)) <==>
        a < b || (a == b && Below(Digits(m % p, width - 1), Digits(n % p, width - 1)))
  {
    hide Pow10, FirstDigit;
    var p := Pow10(width - 1);
    var x, y := Digits(m, width), Digits(n, width);
    assert x[1..] == Digits(m % p, width - 1) && y[1..] == Digits(n % p, width - 1);
  }

  lemma QuotientsOrdered(m: nat, n: nat, p: nat)
    requires m < n && p > 0
    ensures m / p <= n / p
    ensures m / p == n / p ==> m % p < n % p
  {
    if m / p > n / p {
      LargerQuotient(m / p, m % p, n / p, n % p, p);
    }
  }

  lemma LargerQuotient(a: nat, r: nat, b: nat, s: nat, p: nat)
    requires b < a && s < p
    ensures b * p + s < a * p + r
  {
    NextMultiple(b, a, p);
  }

  lemma {:induction false} NextMultiple(b: nat, a: nat, p: nat)
    requires b < a
    ensures b * p + p <= a * p
    decreases a
  {
    if b + 1 < a {
      NextMultiple(b, a - 1, p);
    }
    assert a * p == (a - 1) * p + p;
  }

  lemma DigitBelow(a: nat, b: nat)
    requires a < b < 10
    ensures "0123456789"[a] < "0123456789"[b]
  {
  }

  lemma NamesOrdered(i: nat, j: nat)
    requires i < j < NAMES
    ensures Below(Name(i), Name(j))
  {
    EightDigits();
    DigitsOrdered(i, j, 8);
  }

  lemma {:induction false} BelowTransitive(a: string, b: string, c: string)
    requires Below(a, b) && Below(b, c)
    ensures Below(a, c)
  {
    if a != [] && a[0] == b[0] == c[0] {
      BelowTransitive(a[1..], b[1..], c[1..]);
    }
  }

  lemma {:induction false} BelowIsOrder(a: string, b: string)
    ensures !(Below(a, b) && Below(b, a))
    ensures a == b || Below(a, b) || Below(b, a)
    ensures a == b ==> !Below(a, b)
  {
    if a != [] && b != [] && a[0] == b[0] {
      BelowIsOrder(a[1..], b[1..]);
      assert a == [a[0]] + a[1..] && b == [b[0]] + b[1..];
    }
  }

  lemma {:induction false} BelowPrefixed(prefix: string, a: string, b: string)
    ensures Below(prefix + a, prefix + b) == Below(a, b)
  {
    if prefix == [] {
      assert prefix + a == a && prefix + b == b;
    } else {
      BelowPrefixed(prefix[1..], a, b);
      assert (prefix + a)[1..] == prefix[1..] + a && (prefix + b)[1..] == prefix[1..] + b;
    }
  }

  // ---------------------------------------------------------------------------
  // Sorting by name

  function Insert<T>(x: T, s: seq<T>, key: T -> string): (r: seq<T>)
    ensures multiset(r) == multiset(s) + multiset{x}
  {
    if s == [] then [x]
    else if Below(key(s[0]), key(x)) then
      assert s == [s[0]] + s[1..];
      [s[0]] + Insert(x, s[1..], key)
    else [x] + s
  }

  function Sort<T>(s: seq<T>, key: T -> string): (r: seq<T>)
    ensures multiset(r) == multiset(s)
  {
    if s == [] then []
    else
      assert s == [s[0]] + s[1..];
      Insert(s[0], Sort(s[1..], key), key)
  }

  ghost predicate Increasing<T>(s: seq<T>, key: T -> string) {
    forall i, j :: 0 <= i < j < |s| ==> Below(key(s[i]), key(s[j]))
  }

  /** An element that belongs at position k of an increasing sequence goes there. */
  lemma {:induction false} InsertsAt<T>(s: seq<T>, key: T -> string, k: nat)
    requires k < |s| && Increasing(s, key)
    ensures Insert(s[k], s[..k] + s[k + 1..], key) == s
  {
    var without := s[..k] + s[k + 1..];
    if k == 0 {
      if |s| > 1 {
        BelowIsOrder(key(s[0]), key(s[1]));
        assert without[0] == s[1];
      }
      assert without == s[1..];
    } else {
      var rest := s[1..];
      assert Increasing(rest, key);
      InsertsAt(rest, key, k - 1);
      assert without[0] == s[0];
      assert without[1..] == rest[..k - 1] + rest[k..];
      assert rest[k - 1] == s[k];
      assert Below(key(s[0]), key(s[k]));
    }
  }

  lemma RemovesAt<T>(s: seq<T>, k: nat)
    requires k < |s|
    ensures multiset(s[..k] + s[k + 1..]) == multiset(s) - multiset{s[k]}
  {
    assert s == s[..k] + [s[k]] + s[k + 1..];
  }

  /** Whatever order the entries arrive in, sorting finds the increasing one. */
  lemma {:induction false} SortFindsIncreasing<T>(s: seq<T>, t: seq<T>, key: T -> string)
    requires multiset(s) == multiset(t) && Increasing(t, key)
    ensures Sort(s, key) == t
  {
    if s == [] {
      assert |multiset(t)| == 0;
    } else {
      assert s == [s[0]] + s[1..];
      assert s[0] in multiset(t);
      var k :| 0 <= k < |t| && t[k] == s[0];
      var without := t[..k] + t[k + 1..];
      RemovesAt(t, k);
      assert multiset(s[1..]) == multiset(without);
      WithoutIncreasing(t, key, k);
      SortFindsIncreasing(s[1..], without, key);
      InsertsAt(t, key, k);
    }
  }

  lemma WithoutIncreasing<T>(t: seq<T>, key: T -> string, k: nat)
    requires k < |t| && Increasing(t, key)
    ensures Increasing(t[..k] + t[k + 1..], key)
  {
    var without := t[..k] + t[k + 1..];
    forall i, j | 0 <= i < j < |without|
      ensures Below(key(without[i]), key(without[j]))
    {
      assert without[i] == t[if i < k then i else i + 1];
      assert without[j] == t[if j < k then j else j + 1];
    }
  }

  // ---------------------------------------------------------------------------
  // The canonical split

  function Flatten(chunks: seq<Bytes>): Bytes {
    if chunks == [] then [] else chunks[0] + Flatten(chunks[1..])
  }

  /** Full chunks, then a last one that is not empty. */
  predicate CanonicalChunks(chunks: seq<Bytes>) {
    && chunks != []
    && (forall i :: 0 <= i < |chunks| - 1 ==> |chunks[i]| == CHUNK)
    && 0 < |chunks[|chunks| - 1]| <= CHUNK
  }

  lemma FlattenStep(chunks: seq<Bytes>)
    ensures Flatten(chunks) == if chunks == [] then [] else chunks[0] + Flatten(chunks[1..])
  {
  }

  lemma {:induction false} FlattenAppend(chunks: seq<Bytes>, last: Bytes)
    ensures Flatten(chunks + [last]) == Flatten(chunks) + last
  {
    if chunks == [] {
      assert chunks + [last] == [last];
      assert [last][1..] == [];
    } else {
      FlattenAppend(chunks[1..], last);
      assert (chunks + [last])[1..] == chunks[1..] + [last];
    }
  }

  lemma {:induction false} FlattenSize(chunks: seq<Bytes>)
    requires CanonicalChunks(chunks)
    ensures CHUNK * (|chunks| - 1) < |Flatten(chunks)| <= CHUNK * |chunks|
  {
    if |chunks| > 1 {
      var rest := chunks[1..];
      assert rest[|rest| - 1] == chunks[|chunks| - 1];
      FlattenSize(rest);
    } else {
      assert Flatten(chunks[1..]) == [];
    }
  }

  /** Two canonical splits of one object are the same split. */
  lemma {:induction false} SplitIsUnique(a: seq<Bytes>, b: seq<Bytes>)
    requires CanonicalChunks(a) && CanonicalChunks(b) && Flatten(a) == Flatten(b)
    ensures a == b
  {
    FlattenSize(a);
    FlattenSize(b);
    if |a| == 1 {
      assert |b| == 1;
      assert a[1..] == [] && b[1..] == [];
      assert Flatten(a) == a[0] && Flatten(b) == b[0];
      assert a == [a[0]] && b == [b[0]];
    } else {
      var restA, restB := a[1..], b[1..];
      assert restA[|restA| - 1] == a[|a| - 1] && restB[|restB| - 1] == b[|b| - 1];
      assert a[0] == Flatten(a)[..CHUNK] && b[0] == Flatten(b)[..CHUNK];
      assert Flatten(restA) == Flatten(a)[CHUNK..] && Flatten(restB) == Flatten(b)[CHUNK..];
      SplitIsUnique(restA, restB);
      assert a == [a[0]] + restA && b == [b[0]] + restB;
    }
  }

  // ---------------------------------------------------------------------------
  // The stage

  datatype FileEntry = FileEntry(name: string, regular: bool, data: Bytes)

  function FilesOf(chunks: seq<Bytes>): (r: seq<FileEntry>)
    requires |chunks| <= NAMES
    ensures |r| == |chunks|
  {
    seq(|chunks|, i requires 0 <= i < |chunks| => FileEntry(Name(i), true, chunks[i]))
  }

  class CarrierObjectStage {
    /** The staging directory, in the order of creation. */
    var files: seq<FileEntry>
    /** Whether the last file is still open for writing. */
    var current: bool
    var chunkIndex: nat
    var chunkLen: nat

    constructor ()
      ensures Valid() && Contents() == []
    {
      files, current, chunkIndex, chunkLen := [], false, 0, 0;
    }

    ghost function Contents(): Bytes
      reads this
    {
      Flatten(DataOf(files))
    }

    ghost predicate Valid()
      reads this
    {
      && |files| == chunkIndex + (if current then 1 else 0)
      && |files| <= NAMES
      && Named(files)
      && (forall i :: 0 <= i < chunkIndex ==> |files[i].data| == CHUNK)
      && (if current then |files[chunkIndex].data| == chunkLen && 0 < chunkLen < CHUNK else chunkLen == 0)
    }

    /** One turn of the write loop: open a chunk if none is open, fill it as far
        as the data goes, close it when full. */
    method WritePart(part: Bytes)
      requires Valid() && part != [] && |part| <= CHUNK - chunkLen
      requires chunkIndex + 1 < NAMES
      modifies this
      ensures Valid() && Contents() == old(Contents()) + part
    {
      hide Name, Flatten, DataOf;
      if !current {
        if exists f <- files :: f.name == Name(chunkIndex) {
          NewName(files, chunkIndex);
          assert false;
        }
        ghost var before := files;
        files := files + [FileEntry(Name(chunkIndex), true, [])];
        current := true;
        chunkLen := 0;
        AppendFile(before, files[chunkIndex]);
      }
      ghost var staged := files;
      var last := files[chunkIndex];
      files := files[..chunkIndex] + [last.(data := last.data + part)];
      GrowFile(staged, part);
      chunkLen := chunkLen + |part|;
      if chunkLen == CHUNK {
        chunkIndex := chunkIndex + 1;
        chunkLen := 0;
        current := false;
      }
    }

    /** `write`: whatever the split into writes, the staged chunks hold the
        concatenation. */
    method Write(data: Bytes)
      requires Valid() && |Contents()| + |data| <= MAX_OBJECT
      modifies this
      ensures Valid() && Contents() == old(Contents()) + data
    {
      hide Name, Flatten, Named;
      var rest := data;
      while rest != []
        invariant Valid()
        invariant Contents() + rest == old(Contents()) + data
        decreases |rest|
      {
        StagedSize(DataOf(files), chunkIndex);
        assert Contents() == Flatten(DataOf(files));
        var available := CHUNK - chunkLen;
        var take := if available < |rest| then available else |rest|;
        WritePart(rest[..take]);
        rest := rest[take..];
      }
    }

    /** `publish`: close the last chunk and move the staged directory into
        place, or check the copy that is there already. Afterwards the target
        holds the object as a canonical split. */
    method Publish(id: ObjectDigest, existing: Option<seq<FileEntry>>, amounts: nat -> nat)
      returns (r: Result<seq<FileEntry>>)
      requires Valid() && |Contents()| <= MAX_OBJECT
      requires existing.Some? ==> |existing.value| <= NAMES
      requires id == DigestOf(Contents())
      modifies this
      ensures existing.None? ==> (r.Ok? <==> old(Contents()) != [])
      ensures existing.Some? ==> (r.Ok? <==> old(Contents()) != [] && StoredAs(existing.value, old(Contents())))
      ensures r.Ok? ==> StoredAs(r.value, old(Contents())) && (existing.Some? ==> r.value == existing.value)
    {
      hide Name, Flatten, Sort, StoredAs, DenseFiles;
      ghost var parts := DataOf(files);
      if current {
        chunkIndex := chunkIndex + 1;
        chunkLen := 0;
        current := false;
      }
      if chunkIndex == 0 {
        assert Flatten([]) == [] by {
          FlattenStep([]);
        }
        return Err({Rejected});
      }
      assert CanonicalChunks(parts);
      FlattenSize(parts);
      if existing.Some? {
        DirectoryAcceptsExactly(existing.value);
        var paths := ValidatedChunkPaths(existing.value);
        if paths.Err? {
          return paths.PropagateFailure();
        }
        var reader := new ChunkReader(paths.value);
        var actual := ReaderId(reader, amounts);
        if actual != id {
          return Err({Rejected});
        }
        AcceptedIsStored(existing.value);
        return Ok(existing.value);
      }
      assert files == FilesOf(parts);
      StagedIsStored(parts);
      return Ok(files);
    }
  }

  lemma StagedIsStored(parts: seq<Bytes>)
    requires CanonicalChunks(parts) && |parts| <= NAMES
    ensures StoredAs(FilesOf(parts), Flatten(parts))
  {
    hide Name, Flatten;
  }

  predicate Named(files: seq<FileEntry>) {
    |files| <= NAMES && forall i :: 0 <= i < |files| ==> files[i].regular && files[i].name == Name(i)
  }

  lemma AppendFile(files: seq<FileEntry>, file: FileEntry)
    ensures Flatten(DataOf(files + [file])) == Flatten(DataOf(files)) + file.data
  {
    hide Flatten;
    FlattenAppend(DataOf(files), file.data);
    assert DataOf(files + [file]) == DataOf(files) + [file.data];
  }

  lemma GrowFile(files: seq<FileEntry>, part: Bytes)
    requires files != []
    ensures
      var last := files[|files| - 1];
      Flatten(DataOf(files[..|files| - 1] + [last.(data := last.data + part)])) == Flatten(DataOf(files)) + part
  {
    hide Flatten;
    var full, last := files[..|files| - 1], files[|files| - 1];
    assert files == full + [last];
    AppendFile(full, last);
    AppendFile(full, last.(data := last.data + part));
  }

  lemma NewName(files: seq<FileEntry>, index: nat)
    requires index == |files| < NAMES && Named(files)
    ensures forall f <- files :: f.name != Name(index)
  {
    forall f | f in files
      ensures f.name != Name(index)
    {
      hide Name;
      var i :| 0 <= i < |files| && files[i] == f;
      NamesOrdered(i, index);
      BelowIsOrder(Name(i), Name(index));
    }
  }

  lemma {:induction false} StagedSize(parts: seq<Bytes>, full: nat)
    requires full <= |parts|
    requires forall i :: 0 <= i < full ==> |parts[i]| == CHUNK
    ensures CHUNK * full <= |Flatten(parts)|
  {
    if full > 0 {
      StagedSize(parts[1..], full - 1);
    }
  }

  /** The files are, in some order, the canonical split of the object. */
  ghost predicate StoredAs(files: seq<FileEntry>, content: Bytes) {
    exists chunks ::
      && CanonicalChunks(chunks) && |chunks| <= NAMES
      && Flatten(chunks) == content
      && multiset(files) == multiset(FilesOf(chunks))
  }

  /** The size and digest checks in front of the stage. */
  class ValidatingObjectStage {
    const sink: CarrierObjectStage
    const kind: ObjectKind
    var hashed: Bytes
    var written: nat

    constructor (kind: ObjectKind)
      ensures Valid() && hashed == [] && this.kind == kind && fresh(sink)
    {
      this.sink := new CarrierObjectStage();
      this.kind := kind;
      hashed, written := [], 0;
    }

    ghost predicate Valid()
      reads this, sink
    {
      sink.Valid() && sink.Contents() == hashed && written == |hashed| <= MaxBytes(kind)
    }

    /** A write that would pass the limit of the kind changes nothing. */
    method Write(data: Bytes) returns (r: Result<()>)
      requires Valid()
      modifies this, sink
      ensures Valid()
      ensures r.Ok? <==> |old(hashed)| + |data| <= MaxBytes(kind)
      ensures hashed == if r.Ok? then old(hashed) + data else old(hashed)
    {
      if written + |data| > MaxBytes(kind) {
        return Err({OtherIo});
      }
      sink.Write(data);
      hashed := hashed + data;
      written := written + |data|;
      return Ok(());
    }

    /** `finish`: nothing is published under an ID that is not its digest, and
        no empty object is published. What is published is a canonical split of
        at most 4096 chunks. */
    method Finish(id: ObjectDigest, existing: Option<seq<FileEntry>>, amounts: nat -> nat)
      returns (r: Result<seq<FileEntry>>)
      requires Valid()
      requires existing.Some? ==> |existing.value| <= NAMES
      modifies this, sink
      ensures existing.None? ==> (r.Ok? <==> id == DigestOf(old(hashed)) && old(hashed) != [])
      ensures existing.Some? ==>
        (r.Ok? <==> id == DigestOf(old(hashed)) && old(hashed) != [] && StoredAs(existing.value, old(hashed)))
      ensures r.Ok? ==> id == DigestOf(old(hashed)) && StoredAs(r.value, old(hashed)) && |r.value| <= MAX_CHUNKS
    {
      if DigestOf(hashed) != id {
        return Err({Rejected});
      }
      ghost var content := hashed;
      r := sink.Publish(id, existing, amounts);
      if r.Ok? {
        StoredCount(r.value, content);
      }
    }
  }

  lemma StoredCount(files: seq<FileEntry>, content: Bytes)
    requires StoredAs(files, content) && |content| <= MAX_OBJECT
    ensures |files| <= MAX_CHUNKS
  {
    var chunks :| CanonicalChunks(chunks) && |chunks| <= NAMES && Flatten(chunks) == content
      && multiset(files) == multiset(FilesOf(chunks));
    FlattenSize(chunks);
    assert |files| == |multiset(files)| == |multiset(FilesOf(chunks))| == |chunks|;
  }

  // ---------------------------------------------------------------------------
  // The directory reader

  function FileName(f: FileEntry): string {
    f.name
  }

  /** The loop of `validated_chunk_paths` over the sorted entries. */
  predicate DenseFiles(files: seq<FileEntry>) {
    && 0 < |files| <= NAMES
    && (forall i :: 0 <= i < |files| ==> files[i].regular && files[i].name == Name(i))
    && CanonicalChunks(DataOf(files))
  }

  function DataOf(files: seq<FileEntry>): (r: seq<Bytes>)
    ensures |r| == |files|
  {
    seq(|files|, i requires 0 <= i < |files| => files[i].data)
  }

  method ValidatedChunkPaths(directory: seq<FileEntry>) returns (r: Result<seq<FileEntry>>)
    requires |directory| <= NAMES
    ensures r.Ok? <==> DenseFiles(Sort(directory, FileName))
    ensures r.Ok? ==> r.value == Sort(directory, FileName)
  {
    hide Sort, Name;
    var entries := Sort(directory, FileName);
    assert |entries| == |multiset(entries)| == |multiset(directory)| == |directory|;
    if entries == [] {
      return Err({Rejected});
    }
    var total := |entries|;
    var paths: seq<FileEntry> := [];
    for index := 0 to total
      invariant paths == entries[..index]
      invariant forall i :: 0 <= i < index ==> entries[i].regular && entries[i].name == Name(i)
      invariant forall i :: 0 <= i < index && i + 1 < total ==> |entries[i].data| == CHUNK
      invariant index == total ==> 0 < |entries[total - 1].data| <= CHUNK
    {
      var entry := entries[index];
      if !entry.regular || entry.name != Name(index) {
        return Err({Rejected});
      }
      var length := |entry.data|;
      if (index + 1 < total && length != CHUNK) || (index + 1 == total && (length == 0 || length > CHUNK)) {
        assert DataOf(entries)[index] == entry.data;
        return Err({Rejected});
      }
      paths := paths + [entry];
    }
    return Ok(paths);
  }

  /** The directory check accepts exactly the stored objects, in any listing order. */
  lemma DirectoryAcceptsExactly(directory: seq<FileEntry>)
    requires |directory| <= NAMES
    ensures DenseFiles(Sort(directory, FileName)) <==> exists content :: StoredAs(directory, content)
    ensures forall content :: StoredAs(directory, content) ==> Flatten(DataOf(Sort(directory, FileName))) == content
  {
    forall content | StoredAs(directory, content)
      ensures DenseFiles(Sort(directory, FileName))
      ensures Flatten(DataOf(Sort(directory, FileName))) == content
    {
      StoredSorts(directory, content);
    }
    if DenseFiles(Sort(directory, FileName)) {
      AcceptedIsStored(directory);
    }
  }

  lemma AcceptedIsStored(directory: seq<FileEntry>)
    requires DenseFiles(Sort(directory, FileName))
    ensures StoredAs(directory, Flatten(DataOf(Sort(directory, FileName))))
  {
    hide Sort, Name, Flatten;
    var sorted := Sort(directory, FileName);
    assert sorted == FilesOf(DataOf(sorted));
  }

  lemma StoredSorts(directory: seq<FileEntry>, content: Bytes)
    requires StoredAs(directory, content)
    ensures DenseFiles(Sort(directory, FileName))
    ensures Flatten(DataOf(Sort(directory, FileName))) == content
  {
    hide Sort, Name, Flatten, Below;
    var chunks :| CanonicalChunks(chunks) && |chunks| <= NAMES && Flatten(chunks) == content
      && multiset(directory) == multiset(FilesOf(chunks));
    var files := FilesOf(chunks);
    forall i, j | 0 <= i < j < |files|
      ensures Below(FileName(files[i]), FileName(files[j]))
    {
      NamesOrdered(i, j);
    }
    SortFindsIncreasing(directory, files, FileName);
    assert DataOf(files) == chunks;
  }

  /** `ChunkReader` */
  class ChunkReader {
    const paths: seq<FileEntry>
    var next: nat
    /** The unread rest of the open file. */
    var current: Option<Bytes>

    constructor (paths: seq<FileEntry>)
      ensures this.paths == paths && Valid() && Unread() == Flatten(DataOf(paths))
      ensures fresh(this)
    {
      this.paths := paths;
      next, current := 0, None;
      new;
      assert paths[0..] == paths;
    }

    ghost predicate Valid()
      reads this
    {
      next <= |paths|
    }

    ghost function Unread(): Bytes
      reads this
      requires Valid()
    {
      (if current.Some? then current.value else []) + Flatten(DataOf(paths[next..]))
    }

    /** A read returns the next bytes, as many as the file system likes, and
        nothing only at the end. A read into an empty buffer loses the rest. */
    method Read(capacity: nat, amount: nat) returns (output: Bytes)
      requires Valid()
      modifies this
      ensures Valid() && |output| <= capacity
      ensures capacity > 0 ==> output + Unread() == old(Unread())
      ensures capacity > 0 ==> (output == [] <==> old(Unread()) == [])
      ensures capacity == 0 ==> output == [] && Unread() == []
    {
      hide Flatten, DataOf;
      while true
        invariant Valid()
        invariant capacity > 0 ==> Unread() == old(Unread())
        decreases |paths| - next, current.Some?
      {
        if current.Some? {
          var file := current.value;
          var most := if capacity < |file| then capacity else |file|;
          var taken := if amount == 0 && most > 0 then 1 else if amount < most then amount else most;
          if taken != 0 {
            current := Some(file[taken..]);
            Regroup([], file[..taken], file[taken..], Flatten(DataOf(paths[next..])));
            return file[..taken];
          }
          current := None;
        }
        PathsLeft(paths, next);
        if next == |paths| {
          return [];
        }
        current := Some(paths[next].data);
        next := next + 1;
      }
    }
  }

  lemma PathsLeft(paths: seq<FileEntry>, next: nat)
    requires next <= |paths|
    ensures Flatten(DataOf(paths[next..]))
         == if next == |paths| then [] else paths[next].data + Flatten(DataOf(paths[next + 1..]))
  {
    if next < |paths| {
      assert DataOf(paths[next..])[1..] == DataOf(paths[next + 1..]);
    }
  }

  lemma Regroup(before: Bytes, read: Bytes, body: Bytes, rest: Bytes)
    ensures before + read + body + rest == before + (read + body + rest)
    ensures read + (body + rest) == (read + body) + rest
  {
  }

  /** `reader_id` over a chunk reader. */
  method ReaderId(reader: ChunkReader, amounts: nat -> nat) returns (id: ObjectDigest)
    requires reader.Valid()
    modifies reader
    ensures id == DigestOf(old(reader.Unread()))
  {
    var hashed: Bytes := [];
    var turn := 0;
    while true
      invariant reader.Valid()
      invariant hashed + reader.Unread() == old(reader.Unread())
      decreases |reader.Unread()|
    {
      var read := reader.Read(65536, amounts(turn));
      if read == [] {
        break;
      }
      hashed := hashed + read;
      turn := turn + 1;
    }
    return DigestOf(hashed);
  }

  // ---------------------------------------------------------------------------
  // The tree-listing reader

  /** One `git ls-tree` entry; `regular` is mode 100644 and type blob. */
  datatype TreeEntry = TreeEntry(path: string, regular: bool, blob: nat)

  function TreePath(entry: TreeEntry): string {
    entry.path
  }

  predicate StartsWith(path: string, prefix: string) {
    |prefix| <= |path| && path[..|prefix|] == prefix
  }

  predicate DenseListing(entries: seq<TreeEntry>, directory: string) {
    && 0 < |entries| <= MAX_CHUNKS
    && (forall i :: 0 <= i < |entries| ==> entries[i].regular && entries[i].path == directory + "/" + Name(i))
  }

  /** `parse_chunk_listing`, over entries already split into fields. */
  method ParseChunkListing(listing: seq<TreeEntry>, directory: string) returns (r: Result<seq<TreeEntry>>)
    ensures r.Ok? <==> DenseListing(Sort(listing, TreePath), directory)
    ensures r.Ok? ==> r.value == Sort(listing, TreePath)
  {
    hide Sort, Name, StartsWith;
    var chunks: seq<TreeEntry> := [];
    var sorted := Sort(listing, TreePath);
    for k := 0 to |listing|
      invariant chunks == listing[..k]
      invariant forall i :: 0 <= i < k ==> listing[i].regular && StartsWith(listing[i].path, directory + "/")
    {
      if !listing[k].regular || !StartsWith(listing[k].path, directory + "/") {
        BadEntryStays(listing, sorted, k, directory);
        return Err({InvalidData});
      }
      chunks := chunks + [listing[k]];
    }
    assert chunks == listing;
    assert |sorted| == |multiset(sorted)| == |multiset(listing)| == |listing|;
    chunks := sorted;
    if chunks == [] || |chunks| > MAX_CHUNKS {
      return Err({InvalidData});
    }
    for index := 0 to |chunks|
      invariant forall i :: 0 <= i < index ==> chunks[i].path == directory + "/" + Name(i)
    {
      if chunks[index].path != directory + "/" + Name(index) {
        return Err({InvalidData});
      }
    }
    forall i | 0 <= i < |chunks|
      ensures chunks[i].regular
    {
      assert chunks[i] in multiset(listing);
    }
    return Ok(chunks);
  }

  lemma BadEntryStays(listing: seq<TreeEntry>, sorted: seq<TreeEntry>, k: nat, directory: string)
    requires k < |listing| && multiset(sorted) == multiset(listing)
    requires !listing[k].regular || !StartsWith(listing[k].path, directory + "/")
    ensures !DenseListing(sorted, directory)
  {
    hide Name;
    assert listing[k] in multiset(sorted);
    var i :| 0 <= i < |sorted| && sorted[i] == listing[k];
    assert i < NAMES ==> StartsWith((directory + "/") + Name(i), directory + "/");
  }

  /** The carrier tree of a committed object: the chunk files under its
      directory, each as a blob. */
  ghost predicate CommittedAs(listing: seq<TreeEntry>, directory: string, blobs: map<nat, Bytes>, content: Bytes) {
    exists entries: seq<TreeEntry> ::
      && multiset(listing) == multiset(entries)
      && DenseListing(entries, directory)
      && (forall i :: 0 <= i < |entries| ==> entries[i].blob in blobs)
      && CanonicalChunks(BlobsOf(entries, blobs))
      && Flatten(BlobsOf(entries, blobs)) == content
  }

  function BlobsOf(entries: seq<TreeEntry>, blobs: map<nat, Bytes>): (r: seq<Bytes>)
    ensures |r| == |entries|
  {
    seq(|entries|, i requires 0 <= i < |entries| => if entries[i].blob in blobs then blobs[entries[i].blob] else [])
  }

  /** `start_next_chunk` accepts this chunk. */
  predicate AcceptableChunk(chunks: seq<TreeEntry>, blobs: map<nat, Bytes>, index: nat)
    requires index < |chunks|
  {
    && chunks[index].blob in blobs
    && var size := |blobs[chunks[index].blob]|;
       if index + 1 == |chunks| then 0 < size <= CHUNK else size == CHUNK
  }

  predicate AllAcceptable(chunks: seq<TreeEntry>, blobs: map<nat, Bytes>) {
    forall i :: 0 <= i < |chunks| ==> AcceptableChunk(chunks, blobs, i)
  }

  /** `GitChunkReader` */
  class GitChunkReader {
    const chunks: seq<TreeEntry>
    const blobs: map<nat, Bytes>
    var next: nat
    /** The rest of the blob being read; its size is `remaining`. */
    var body: Bytes

    constructor (chunks: seq<TreeEntry>, blobs: map<nat, Bytes>)
      ensures this.chunks == chunks && this.blobs == blobs && Valid() && fresh(this)
      ensures next == 0 && body == []
    {
      this.chunks, this.blobs := chunks, blobs;
      next, body := 0, [];
    }

    ghost predicate Valid()
      reads this
    {
      next <= |chunks|
    }

    predicate Acceptable(index: nat)
      requires index < |chunks|
    {
      AcceptableChunk(chunks, blobs, index)
    }

    method Read(capacity: nat, amount: nat) returns (r: Result<Bytes>)
      requires Valid()
      modifies this
      ensures Valid()
      ensures r.Err? <==> capacity > 0 && old(body) == [] && old(next) < |chunks| && !Acceptable(old(next))
      ensures r.Err? ==> next == old(next) && body == old(body)
      ensures r.Ok? ==>
        && r.value + body + Flatten(BlobsOf(chunks[next..], blobs))
           == old(body) + Flatten(BlobsOf(chunks[old(next)..], blobs))
        && (capacity > 0 ==> (r.value == [] <==> old(body) == [] && old(next) == |chunks|))
        && (next == old(next) || (next == old(next) + 1 && Acceptable(old(next))))
    {
      hide Flatten;
      if capacity == 0 {
        return Ok([]);
      }
      if body == [] {
        FlattenStep(BlobsOf(chunks[next..], blobs));
        if next == |chunks| {
          return Ok([]);
        }
        if !Acceptable(next) {
          return Err({InvalidData});
        }
        assert BlobsOf(chunks[next..], blobs)[1..] == BlobsOf(chunks[next + 1..], blobs);
        body := blobs[chunks[next].blob];
        next := next + 1;
      }
      var most := if capacity < |body| then capacity else |body|;
      var taken := if amount == 0 then 1 else if amount < most then amount else most;
      assert body == body[..taken] + body[taken..];
      r := Ok(body[..taken]);
      body := body[taken..];
    }

    /** Reading to the end fails exactly when some blob has the wrong size, and
        otherwise yields the blobs in order. */
    method ReadToEnd(amounts: nat -> nat) returns (r: Result<Bytes>)
      requires Valid() && next == 0 && body == []
      modifies this
      ensures r.Ok? <==> AllAcceptable(chunks, blobs)
      ensures r.Ok? ==> r.value == Flatten(BlobsOf(chunks, blobs))
    {
      hide Flatten, BlobsOf;
      var output: Bytes := [];
      var turn := 0;
      assert chunks[0..] == chunks;
      ghost var rest := Flatten(BlobsOf(chunks, blobs));
      while true
        invariant Valid()
        invariant forall i: nat :: i < next ==> AcceptableChunk(chunks, blobs, i)
        invariant rest == body + Flatten(BlobsOf(chunks[next..], blobs))
        invariant output + rest == Flatten(BlobsOf(chunks, blobs))
        decreases |Flatten(BlobsOf(chunks, blobs))| - |output|
      {
        var read := Read(65536, amounts(turn));
        if read.Err? {
          return read;
        }
        ghost var after := body + Flatten(BlobsOf(chunks[next..], blobs));
        Regroup([], read.value, body, Flatten(BlobsOf(chunks[next..], blobs)));
        if read.value == [] {
          FlattenStep(BlobsOf(chunks[next..], blobs));
          return Ok(output);
        }
        assert output + (read.value + after) == (output + read.value) + after;
        rest := after;
        output := output + read.value;
        turn := turn + 1;
      }
    }
  }

  /** For a committed object, in any listing order, the listing parser accepts
      and the blob reader returns the object. */
  method ReadCommitted(
    listing: seq<TreeEntry>, directory: string, blobs: map<nat, Bytes>, amounts: nat -> nat, ghost content: Bytes)
    returns (r: Result<Bytes>)
    ensures CommittedAs(listing, directory, blobs, content) ==> r == Ok(content)
    ensures r.Ok? ==> CommittedAs(listing, directory, blobs, r.value)
  {
    hide Sort, Name, Flatten, Below, CanonicalChunks, AllAcceptable, BlobsOf, CommittedAs, DenseListing;
    if CommittedAs(listing, directory, blobs, content) {
      CommittedSorts(listing, directory, blobs, content);
    }
    var parsed := ParseChunkListing(listing, directory);
    if parsed.Err? {
      return parsed.PropagateFailure();
    }
    var chunks := parsed.value;
    var reader := new GitChunkReader(chunks, blobs);
    DenseIsNotEmpty(chunks, directory);
    AcceptableIsCanonical(chunks, blobs);
    r := reader.ReadToEnd(amounts);
    if r.Ok? {
      SortedIsCommitted(listing, directory, blobs);
    }
  }

  lemma DenseIsNotEmpty(chunks: seq<TreeEntry>, directory: string)
    requires DenseListing(chunks, directory)
    ensures chunks != []
  {
  }

  lemma SortedIsCommitted(listing: seq<TreeEntry>, directory: string, blobs: map<nat, Bytes>)
    requires
      var sorted := Sort(listing, TreePath);
      && DenseListing(sorted, directory)
      && (forall i :: 0 <= i < |sorted| ==> sorted[i].blob in blobs)
      && CanonicalChunks(BlobsOf(sorted, blobs))
    ensures CommittedAs(listing, directory, blobs, Flatten(BlobsOf(Sort(listing, TreePath), blobs)))
  {
    hide Sort, Name, Flatten;
  }

  lemma CommittedSorts(listing: seq<TreeEntry>, directory: string, blobs: map<nat, Bytes>, content: Bytes)
    requires CommittedAs(listing, directory, blobs, content)
    ensures
      var sorted := Sort(listing, TreePath);
      && DenseListing(sorted, directory)
      && (forall i :: 0 <= i < |sorted| ==> sorted[i].blob in blobs)
      && CanonicalChunks(BlobsOf(sorted, blobs))
      && Flatten(BlobsOf(sorted, blobs)) == content
  {
    hide Sort, Name, Flatten, Below;
    var entries: seq<TreeEntry> :|
      && multiset(listing) == multiset(entries)
      && DenseListing(entries, directory)
      && (forall i :: 0 <= i < |entries| ==> entries[i].blob in blobs)
      && CanonicalChunks(BlobsOf(entries, blobs))
      && Flatten(BlobsOf(entries, blobs)) == content;
    forall i, j | 0 <= i < j < |entries|
      ensures Below(TreePath(entries[i]), TreePath(entries[j]))
    {
      NamesOrdered(i, j);
      BelowPrefixed(directory + "/", Name(i), Name(j));
    }
    SortFindsIncreasing(listing, entries, TreePath);
  }

  lemma AcceptableIsCanonical(chunks: seq<TreeEntry>, blobs: map<nat, Bytes>)
    requires chunks != []
    ensures AllAcceptable(chunks, blobs) <==>
      && (forall i :: 0 <= i < |chunks| ==> chunks[i].blob in blobs)
      && CanonicalChunks(BlobsOf(chunks, blobs))
  {
    var data := BlobsOf(chunks, blobs);
    if AllAcceptable(chunks, blobs) {
      forall i | 0 <= i < |chunks|
        ensures chunks[i].blob in blobs && data[i] == blobs[chunks[i].blob]
        ensures if i + 1 == |chunks| then 0 < |data[i]| <= CHUNK else |data[i]| == CHUNK
      {
        assert AcceptableChunk(chunks, blobs, i);
      }
    } else if forall i :: 0 <= i < |chunks| ==> chunks[i].blob in blobs {
      var i :| 0 <= i < |chunks| && !AcceptableChunk(chunks, blobs, i);
      assert data[i] == blobs[chunks[i].blob];
    }
  }

  /** Committing stored files as blobs makes a committed object. */
  lemma StoredCommits(
    files: seq<FileEntry>, content: Bytes, directory: string, listing: seq<TreeEntry>, blobs: map<nat, Bytes>)
    requires StoredAs(files, content) && |files| <= MAX_CHUNKS
    requires |listing| == |files|
    requires forall i :: 0 <= i < |files| ==> EntryOf(listing[i], files[i], directory, blobs)
    ensures CommittedAs(listing, directory, blobs, content)
  {
    hide Flatten, Name, EntryOf, DenseListing, BlobsOf, FilesOf;
    var chunks :| CanonicalChunks(chunks) && |chunks| <= NAMES && Flatten(chunks) == content
      && multiset(files) == multiset(FilesOf(chunks));
    var target := FilesOf(chunks);
    var entries := CommitInOrder(files, target, directory, listing, blobs);
    assert |files| == |multiset(files)| == |multiset(target)| == |target|;
    EntriesOfChunks(entries, chunks, directory, blobs);
  }

  lemma EntriesOfChunks(entries: seq<TreeEntry>, chunks: seq<Bytes>, directory: string, blobs: map<nat, Bytes>)
    requires 0 < |chunks| <= MAX_CHUNKS && |entries| == |chunks|
    requires forall i :: 0 <= i < |chunks| ==> EntryOf(entries[i], FilesOf(chunks)[i], directory, blobs)
    ensures DenseListing(entries, directory)
    ensures forall i :: 0 <= i < |entries| ==> entries[i].blob in blobs
    ensures BlobsOf(entries, blobs) == chunks
  {
    hide Name;
    forall i | 0 <= i < |chunks|
      ensures entries[i].blob in blobs && blobs[entries[i].blob] == chunks[i]
      ensures entries[i].regular && entries[i].path == directory + "/" + Name(i)
    {
      assert EntryOf(entries[i], FilesOf(chunks)[i], directory, blobs);
    }
  }

  /** Reorders a listing the way its files are reordered. */
  lemma {:induction false} CommitInOrder(
    files: seq<FileEntry>, target: seq<FileEntry>, directory: string, listing: seq<TreeEntry>, blobs: map<nat, Bytes>)
    returns (entries: seq<TreeEntry>)
    requires multiset(files) == multiset(target) && |listing| == |files|
    requires forall i :: 0 <= i < |files| ==> EntryOf(listing[i], files[i], directory, blobs)
    ensures multiset(entries) == multiset(listing)
    ensures |entries| == |target|
    ensures forall i :: 0 <= i < |target| ==> EntryOf(entries[i], target[i], directory, blobs)
    decreases |target|
  {
    hide EntryOf;
    assert |files| == |multiset(files)| == |multiset(target)| == |target|;
    if target == [] {
      assert listing == [];
      entries := [];
    } else {
      var k := FindHead(files, target);
      WithoutOne(files, listing, k, directory, blobs);
      var f, l := files[..k] + files[k + 1..], listing[..k] + listing[k + 1..];
      var rest := CommitInOrder(f, target[1..], directory, l, blobs);
      entries := [listing[k]] + rest;
      PutBack(listing, k, rest);
    }
  }

  lemma FindHead(files: seq<FileEntry>, target: seq<FileEntry>) returns (k: nat)
    requires multiset(files) == multiset(target) && target != []
    ensures k < |files| && files[k] == target[0]
    ensures multiset(files[..k] + files[k + 1..]) == multiset(target[1..])
  {
    assert target[0] in multiset(files);
    k :| 0 <= k < |files| && files[k] == target[0];
    RemovesAt(files, k);
    assert target == [target[0]] + target[1..];
  }

  lemma PutBack(listing: seq<TreeEntry>, k: nat, rest: seq<TreeEntry>)
    requires k < |listing| && multiset(rest) == multiset(listing[..k] + listing[k + 1..])
    ensures multiset([listing[k]] + rest) == multiset(listing)
  {
    RemovesAt(listing, k);
    assert multiset([listing[k]] + rest) == multiset{listing[k]} + multiset(rest);
  }

  lemma WithoutOne(
    files: seq<FileEntry>, listing: seq<TreeEntry>, k: nat, directory: string, blobs: map<nat, Bytes>)
    requires k < |files| == |listing|
    requires forall i :: 0 <= i < |files| ==> EntryOf(listing[i], files[i], directory, blobs)
    ensures
      var f, l := files[..k] + files[k + 1..], listing[..k] + listing[k + 1..];
      |f| == |l| && forall i :: 0 <= i < |f| ==> EntryOf(l[i], f[i], directory, blobs)
  {
    hide EntryOf;
  }

  ghost predicate EntryOf(entry: TreeEntry, file: FileEntry, directory: string, blobs: map<nat, Bytes>) {
    && entry.path == directory + "/" + file.name
    && entry.regular == file.regular
    && entry.blob in blobs && blobs[entry.blob] == file.data
  }
}
