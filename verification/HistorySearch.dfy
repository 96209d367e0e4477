/** The search of carrier history for good copies: `commit_history`,
    `copy_commits`, `read_copy_at`, `recovery_history` and
    `restore_historical_object` of src/storage.rs. Histories are newest first. */
module HistorySearch {
  import opened Prelude
  import opened Encodings
  import opened CarrierChunks

  /** What the tree of each commit lists for one object, newest first. */
  type Copies = seq<Option<seq<TreeEntry>>>

  /** One object, and the blobs of the carrier repository. */
  datatype Wanted = Wanted(id: ObjectDigest, directory: string, blobs: map<nat, Bytes>)

  // ---------------------------------------------------------------------------
  // Linear history

  datatype RevListEntry = RevListEntry(commit: nat, parents: nat)

  /** `commit_history`: any commit with more than one parent is refused, and the
      listing stops one past the limit so that the caller can tell. */
  method CommitHistory(reachable: seq<RevListEntry>, limit: nat) returns (r: Result<seq<nat>>)
    ensures
      var listed := reachable[..if |reachable| <= limit + 1 then |reachable| else limit + 1];
      && (r.Ok? <==> forall e <- listed :: e.parents <= 1)
      && (r.Ok? ==> |r.value| == |listed| && forall i :: 0 <= i < |listed| ==> r.value[i] == listed[i].commit)
      && (r.Ok? ==> (|r.value| > limit <==> |reachable| > limit))
  {
    var listed := reachable[..if |reachable| <= limit + 1 then |reachable| else limit + 1];
    var commits: seq<nat> := [];
    for k := 0 to |listed|
      invariant |commits| == k
      invariant forall i :: 0 <= i < k ==> listed[i].parents <= 1 && commits[i] == listed[i].commit
    {
      if listed[k].parents > 1 {
        assert listed[k] in listed;
        return Err({Rejected});
      }
      commits := commits + [listed[k].commit];
    }
    return Ok(commits);
  }

  /** The commit changed the object's path; the first commit changed it if it
      holds the path at all. */
  predicate Changed(copies: Copies, i: nat)
    requires i < |copies|
  {
    if i + 1 == |copies| then copies[i].Some? else copies[i] != copies[i + 1]
  }

  predicate InRange(copies: Copies, commits: seq<nat>) {
    forall m :: 0 <= m < |commits| ==> commits[m] < |copies|
  }

  /** `copy_commits`: `git rev-list` limited to the object's path. */
  function ChangedFrom(copies: Copies, k: nat): (r: seq<nat>)
    requires k <= |copies|
    ensures |r| <= |copies| - k
    ensures InRange(copies, r)
    ensures forall i <- r :: k <= i < |copies| && Changed(copies, i)
    ensures forall i :: k <= i < |copies| && Changed(copies, i) ==> i in r
    decreases |copies| - k
  {
    if k == |copies| then []
    else if Changed(copies, k) then [k] + ChangedFrom(copies, k + 1)
    else ChangedFrom(copies, k + 1)
  }

  /** On linear history, every copy that any commit holds was started by some
      commit that changed the path and holds the same copy. */
  lemma {:induction false} StartedBySomeChange(copies: Copies, i: nat) returns (j: nat)
    requires i < |copies| && copies[i].Some?
    ensures j < |copies| && Changed(copies, j) && copies[j] == copies[i]
    decreases |copies| - i
  {
    if Changed(copies, i) {
      j := i;
    } else {
      j := StartedBySomeChange(copies, i + 1);
    }
  }

  // ---------------------------------------------------------------------------
  // One copy

  ghost predicate Holds(w: Wanted, copy: Option<seq<TreeEntry>>, content: Bytes) {
    && copy.Some?
    && CommittedAs(copy.value, w.directory, w.blobs, content)
    && w.id == DigestOf(content)
  }

  ghost predicate ValidCopy(w: Wanted, copy: Option<seq<TreeEntry>>) {
    exists content :: Holds(w, copy, content)
  }

  function BlobSize(entry: TreeEntry, blobs: map<nat, Bytes>): nat {
    if entry.blob in blobs then |blobs[entry.blob]| else 0
  }

  /** The bytes read from chunk k on, up to the first unacceptable chunk. */
  function BytesFrom(chunks: seq<TreeEntry>, blobs: map<nat, Bytes>, k: nat): nat
    requires k <= |chunks|
    decreases |chunks| - k
  {
    if k == |chunks| || !AcceptableChunk(chunks, blobs, k) then 0
    else BlobSize(chunks[k], blobs) + BytesFrom(chunks, blobs, k + 1)
  }

  /** The bytes one attempt reads, whether or not the copy turns out valid. */
  function BytesRead(w: Wanted, copy: Option<seq<TreeEntry>>): nat {
    if copy.None? then 0
    else
      var chunks := Sort(copy.value, TreePath);
      if DenseListing(chunks, w.directory) then BytesFrom(chunks, w.blobs, 0) else 0
  }

  /** `read_copy_at` with the counting sink: the budget covers rejected copies,
      and within it the answer is whether the copy is valid. */
  method ReadCopyAt(w: Wanted, copy: Option<seq<TreeEntry>>, total: nat, max: nat, amounts: nat -> nat)
    returns (r: Result<bool>, bytes: Bytes, newTotal: nat)
    requires total <= max
    ensures r.Err? <==> total + BytesRead(w, copy) > max
    ensures r.Err? ==> r.causes == {BudgetExhausted}
    ensures r.Ok? ==> newTotal == total + BytesRead(w, copy)
    ensures r.Ok? ==> (r.value <==> ValidCopy(w, copy))
    ensures r.Ok? && r.value ==> Holds(w, copy, bytes)
  {
    hide Sort, DenseListing, CommittedAs, BytesFrom, Flatten, BlobsOf;
    newTotal, bytes := total, [];
    if copy.None? {
      return Ok(false), bytes, newTotal;
    }
    var parsed := ParseChunkListing(copy.value, w.directory);
    ParsedDecides(w, copy);
    if parsed.Err? {
      return Ok(false), bytes, newTotal;
    }
    r, bytes, newTotal := ReadChunks(w, parsed.value, total, max, amounts);
  }

  /** A copy is valid exactly when its sorted listing is dense, every chunk is
      acceptable and the bytes have the digest. */
  lemma ParsedDecides(w: Wanted, copy: Option<seq<TreeEntry>>)
    requires copy.Some?
    ensures
      var chunks := Sort(copy.value, TreePath);
      && (ValidCopy(w, copy) <==>
           && DenseListing(chunks, w.directory)
           && AllAcceptable(chunks, w.blobs)
           && w.id == DigestOf(Flatten(BlobsOf(chunks, w.blobs))))
      && (ValidCopy(w, copy) ==> Holds(w, copy, Flatten(BlobsOf(chunks, w.blobs))))
      && (DenseListing(chunks, w.directory) ==> chunks != [])
  {
    hide Sort, DenseListing, CommittedAs, Flatten, BlobsOf, AllAcceptable, CanonicalChunks;
    var chunks := Sort(copy.value, TreePath);
    if ValidCopy(w, copy) {
      var content :| Holds(w, copy, content);
      CommittedSorts(copy.value, w.directory, w.blobs, content);
      DenseIsNotEmpty(chunks, w.directory);
      AcceptableIsCanonical(chunks, w.blobs);
    }
    if DenseListing(chunks, w.directory) {
      DenseIsNotEmpty(chunks, w.directory);
      AcceptableIsCanonical(chunks, w.blobs);
      if AllAcceptable(chunks, w.blobs) {
        SortedIsCommitted(copy.value, w.directory, w.blobs);
        if w.id == DigestOf(Flatten(BlobsOf(chunks, w.blobs))) {
          assert Holds(w, copy, Flatten(BlobsOf(chunks, w.blobs)));
        }
      }
    }
  }

  method ReadChunks(w: Wanted, chunks: seq<TreeEntry>, total: nat, max: nat, amounts: nat -> nat)
    returns (r: Result<bool>, bytes: Bytes, newTotal: nat)
    requires total <= max
    ensures r.Err? <==> total + BytesFrom(chunks, w.blobs, 0) > max
    ensures r.Err? ==> r.causes == {BudgetExhausted}
    ensures r.Ok? ==> newTotal == total + BytesFrom(chunks, w.blobs, 0)
    ensures r.Ok? ==>
      (r.value <==> AllAcceptable(chunks, w.blobs) && w.id == DigestOf(Flatten(BlobsOf(chunks, w.blobs))))
    ensures r.Ok? && r.value ==> bytes == Flatten(BlobsOf(chunks, w.blobs))
  {
    hide Flatten, BlobsOf, BytesFrom;
    bytes, newTotal := [], total;
    var reader := new GitChunkReader(chunks, w.blobs);
    var turn := 0;
    assert chunks[0..] == chunks;
    ghost var rest := Flatten(BlobsOf(chunks, w.blobs));
    while true
      invariant reader.Valid() && reader.chunks == chunks && reader.blobs == w.blobs
      invariant newTotal == total + |bytes| <= max
      invariant forall i: nat :: i < reader.next ==> AcceptableChunk(chunks, w.blobs, i)
      invariant rest == reader.body + Flatten(BlobsOf(chunks[reader.next..], w.blobs))
      invariant bytes + rest == Flatten(BlobsOf(chunks, w.blobs))
      invariant |bytes| + |reader.body| + BytesFrom(chunks, w.blobs, reader.next) == BytesFrom(chunks, w.blobs, 0)
      decreases |Flatten(BlobsOf(chunks, w.blobs))| - |bytes|
    {
      ghost var next, body := reader.next, reader.body;
      NextBytes(chunks, w.blobs, next);
      var read := reader.Read(65536, amounts(turn));
      if read.Err? {
        return Ok(false), bytes, newTotal;
      }
      ghost var after := Flatten(BlobsOf(chunks[reader.next..], w.blobs));
      Regroup([], read.value, reader.body, after);
      if read.value == [] {
        FlattenStep(BlobsOf(chunks[reader.next..], w.blobs));
        return Ok(w.id == DigestOf(bytes)), bytes, newTotal;
      }
      SameSize(chunks, w.blobs, next, body, reader.next, reader.body, read.value);
      newTotal := newTotal + |read.value|;
      if newTotal > max {
        return Err({BudgetExhausted}), bytes, newTotal;
      }
      assert bytes + (read.value + (reader.body + after)) == (bytes + read.value) + (reader.body + after);
      rest := reader.body + after;
      bytes := bytes + read.value;
      turn := turn + 1;
    }
  }

  lemma NextBytes(chunks: seq<TreeEntry>, blobs: map<nat, Bytes>, k: nat)
    requires k <= |chunks|
    ensures BytesFrom(chunks, blobs, k)
         == if k == |chunks| || !AcceptableChunk(chunks, blobs, k) then 0
            else BlobSize(chunks[k], blobs) + BytesFrom(chunks, blobs, k + 1)
  {
  }

  /** What a read returns was counted by the chunk it came from. */
  lemma SameSize(
    chunks: seq<TreeEntry>, blobs: map<nat, Bytes>, next: nat, body: Bytes, next2: nat, body2: Bytes, read: Bytes)
    requires next <= |chunks|
    requires next2 == next || (next2 == next + 1 && next < |chunks| && AcceptableChunk(chunks, blobs, next))
    requires read + body2 + Flatten(BlobsOf(chunks[next2..], blobs)) == body + Flatten(BlobsOf(chunks[next..], blobs))
    ensures next2 == next ==> |read| + |body2| == |body|
    ensures next2 == next + 1 ==> |read| + |body2| == |body| + BlobSize(chunks[next], blobs)
  {
    hide Flatten;
    if next2 == next + 1 {
      FlattenStep(BlobsOf(chunks[next..], blobs));
      assert BlobsOf(chunks[next..], blobs)[1..] == BlobsOf(chunks[next2..], blobs);
    }
  }

  // ---------------------------------------------------------------------------
  // All copies

  /** The bytes a search reads: the tried copies in order, up to and including
      the first valid one. */
  ghost function SearchBytes(w: Wanted, copies: Copies, tries: seq<nat>): nat
    requires InRange(copies, tries)
  {
    if tries == [] then 0
    else
      BytesRead(w, copies[tries[0]])
      + (if ValidCopy(w, copies[tries[0]]) then 0 else SearchBytes(w, copies, tries[1..]))
  }

  /** Some commit holds a valid copy if and only if some commit that changed the
      path does. */
  lemma ChangedCommitsSuffice(w: Wanted, copies: Copies)
    ensures (exists i :: 0 <= i < |copies| && ValidCopy(w, copies[i])) <==>
      var tries := ChangedFrom(copies, 0);
      exists m :: 0 <= m < |tries| && ValidCopy(w, copies[tries[m]])
  {
    hide ValidCopy;
    if exists i :: 0 <= i < |copies| && ValidCopy(w, copies[i]) {
      var i :| 0 <= i < |copies| && ValidCopy(w, copies[i]);
      ValidIsPresent(w, copies[i]);
      var j := StartedBySomeChange(copies, i);
      var tries := ChangedFrom(copies, 0);
      var m :| 0 <= m < |tries| && tries[m] == j;
      assert ValidCopy(w, copies[tries[m]]);
    }
  }

  /** The copy search of `restore_historical_object`, and of one head ID in
      `recovery_history`: trying only the commits that changed the path finds a
      valid copy if and only if some commit of the whole history holds one. The
      search fails exactly when the bytes of the copies it tries, the rejected
      ones included, pass the budget. */
  method FindCopy(w: Wanted, copies: Copies, total: nat, max: nat, amounts: nat -> nat)
    returns (r: Result<Option<Bytes>>, newTotal: nat)
    requires total <= max
    ensures r.Err? <==> total + SearchBytes(w, copies, ChangedFrom(copies, 0)) > max
    ensures r.Err? ==> r.causes == {BudgetExhausted}
    ensures r.Ok? ==> newTotal == total + SearchBytes(w, copies, ChangedFrom(copies, 0)) <= max
    ensures r.Ok? ==> (r.value.Some? <==> exists i :: 0 <= i < |copies| && ValidCopy(w, copies[i]))
    ensures r.Ok? && r.value.Some? ==> w.id == DigestOf(r.value.value)
  {
    hide ValidCopy, BytesRead, SearchBytes;
    newTotal := total;
    var tries := ChangedFrom(copies, 0);
    var k := 0;
    while k < |tries|
      invariant 0 <= k <= |tries|
      invariant newTotal <= max
      invariant newTotal + SearchBytes(w, copies, tries[k..]) == total + SearchBytes(w, copies, tries)
      invariant forall m :: 0 <= m < k ==> !ValidCopy(w, copies[tries[m]])
    {
      SearchStep(w, copies, tries, k);
      var valid, bytes, counted := ReadCopyAt(w, copies[tries[k]], newTotal, max, amounts);
      if valid.Err? {
        return Err(valid.causes), newTotal;
      }
      newTotal := counted;
      if valid.value {
        HeldHasDigest(w, copies[tries[k]], bytes);
        return Ok(Some(bytes)), newTotal;
      }
      k := k + 1;
    }
    SearchNothing(w, copies, tries);
    ChangedCommitsSuffice(w, copies);
    return Ok(None), newTotal;
  }

  lemma SearchStep(w: Wanted, copies: Copies, tries: seq<nat>, k: nat)
    requires InRange(copies, tries)
    requires k < |tries|
    ensures SearchBytes(w, copies, tries[k..])
         == BytesRead(w, copies[tries[k]])
            + (if ValidCopy(w, copies[tries[k]]) then 0 else SearchBytes(w, copies, tries[k + 1..]))
  {
    hide ValidCopy, BytesRead;
    assert tries[k..][1..] == tries[k + 1..];
  }

  lemma SearchNothing(w: Wanted, copies: Copies, tries: seq<nat>)
    requires InRange(copies, tries)
    ensures SearchBytes(w, copies, tries[|tries|..]) == 0
  {
  }

  lemma HeldHasDigest(w: Wanted, copy: Option<seq<TreeEntry>>, bytes: Bytes)
    requires Holds(w, copy, bytes)
    ensures w.id == DigestOf(bytes)
  {
  }

  lemma ValidIsPresent(w: Wanted, copy: Option<seq<TreeEntry>>)
    requires ValidCopy(w, copy)
    ensures copy.Some?
  {
  }

  // ---------------------------------------------------------------------------
  // Every head in history

  /** The carrier as recovery sees it: the object each ID names at each commit. */
  datatype Carrier = Carrier(
    blobs: map<nat, Bytes>,
    directory: ObjectDigest -> string,
    copies: ObjectDigest -> Copies)

  function Want(c: Carrier, id: ObjectDigest): Wanted {
    Wanted(id, c.directory(id), c.blobs)
  }

  ghost predicate HeldSomewhere(c: Carrier, id: ObjectDigest) {
    exists i :: 0 <= i < |c.copies(id)| && ValidCopy(Want(c, id), c.copies(id)[i])
  }

  /** The bytes read for the first `count` commits: a search for each head that
      no earlier search found, repeated for a head that is held nowhere. */
  ghost function HistoryBytes(c: Carrier, heads: seq<Option<ObjectDigest>>, count: nat): nat
    requires count <= |heads|
  {
    if count == 0 then 0
    else
      var head := heads[count - 1];
      HistoryBytes(c, heads, count - 1)
      + (if head.Some? && !(Some(head.value) in heads[..count - 1] && HeldSomewhere(c, head.value)) then
           SearchBytes(Want(c, head.value), c.copies(head.value), ChangedFrom(c.copies(head.value), 0))
         else 0)
  }

  /** The manifests of exactly those heads that some commit holds intact. */
  ghost predicate Holding(c: Carrier, heads: seq<Option<ObjectDigest>>, manifests: map<ObjectDigest, Bytes>) {
    forall id :: id in manifests <==> Some(id) in heads && HeldSomewhere(c, id)
  }

  ghost predicate Digested(manifests: map<ObjectDigest, Bytes>) {
    forall id <- manifests :: id == DigestOf(manifests[id])
  }

  lemma NothingHeld(c: Carrier, heads: seq<Option<ObjectDigest>>)
    ensures HistoryBytes(c, heads, 0) == 0
    ensures Holding(c, heads[..0], map[]) && Digested(map[])
  {
  }

  /** One more commit whose head is held already or held nowhere. */
  lemma HoldingStep(c: Carrier, heads: seq<Option<ObjectDigest>>, k: nat, manifests: map<ObjectDigest, Bytes>)
    requires k < |heads| && Holding(c, heads[..k], manifests)
    ensures heads[k].Some? ==> (heads[k].value in manifests <==> Some(heads[k].value) in heads[..k] && HeldSomewhere(c, heads[k].value))
    ensures heads[k].None? || heads[k].value in manifests || !HeldSomewhere(c, heads[k].value) ==>
      Holding(c, heads[..k + 1], manifests)
  {
    hide HeldSomewhere;
    assert heads[..k + 1] == heads[..k] + [heads[k]];
  }

  /** One more commit whose head is found. */
  lemma FoundStep(
    c: Carrier, heads: seq<Option<ObjectDigest>>, k: nat, manifests: map<ObjectDigest, Bytes>, bytes: Bytes)
    requires k < |heads| && Holding(c, heads[..k], manifests) && Digested(manifests)
    requires heads[k] == Some(DigestOf(bytes)) && HeldSomewhere(c, DigestOf(bytes))
    ensures Holding(c, heads[..k + 1], manifests[DigestOf(bytes) := bytes])
    ensures Digested(manifests[DigestOf(bytes) := bytes])
  {
    hide HeldSomewhere;
    assert heads[..k + 1] == heads[..k] + [heads[k]];
  }

  lemma HistoryStep(c: Carrier, heads: seq<Option<ObjectDigest>>, k: nat)
    requires k < |heads|
    ensures HistoryBytes(c, heads, k + 1) == HistoryBytes(c, heads, k)
      + (if heads[k].Some? && !(Some(heads[k].value) in heads[..k] && HeldSomewhere(c, heads[k].value)) then
           SearchBytes(Want(c, heads[k].value), c.copies(heads[k].value), ChangedFrom(c.copies(heads[k].value), 0))
         else 0)
  {
    hide SearchBytes, HeldSomewhere;
  }

  lemma HeldMeans(c: Carrier, id: ObjectDigest)
    ensures HeldSomewhere(c, id) <==>
      exists i :: 0 <= i < |c.copies(id)| && ValidCopy(Want(c, id), c.copies(id)[i])
  {
  }

  lemma {:induction false} HistoryBytesGrow(c: Carrier, heads: seq<Option<ObjectDigest>>, k: nat, count: nat)
    requires k <= count <= |heads|
    ensures HistoryBytes(c, heads, k) <= HistoryBytes(c, heads, count)
    decreases count
  {
    if k < count {
      HistoryBytesGrow(c, heads, k, count - 1);
    }
  }

  /** The loop of `recovery_history`: it returns every head in order, and the
      manifests of exactly those heads that some commit holds intact, unless the
      bytes it reads pass the budget. */
  method RecoveryHistory(c: Carrier, heads: seq<Option<ObjectDigest>>, max: nat, amounts: nat -> nat)
    returns (r: Result<(map<ObjectDigest, Bytes>, seq<Option<ObjectDigest>>)>)
    ensures r.Err? <==> HistoryBytes(c, heads, |heads|) > max
    ensures r.Err? ==> r.causes == {BudgetExhausted}
    ensures r.Ok? ==> r.value.1 == heads && Holding(c, heads, r.value.0) && Digested(r.value.0)
  {
    hide HistoryBytes, SearchBytes, HeldSomewhere, ChangedFrom, Holding, Digested, ValidCopy;
    NothingHeld(c, heads);
    var manifests: map<ObjectDigest, Bytes> := map[];
    var commits: seq<Option<ObjectDigest>> := [];
    var total: nat := 0;
    for k := 0 to |heads|
      invariant total == HistoryBytes(c, heads, k) <= max
      invariant commits == heads[..k]
      invariant Holding(c, heads[..k], manifests)
      invariant Digested(manifests)
    {
      assert heads[..k + 1] == heads[..k] + [heads[k]];
      HistoryBytesGrow(c, heads, k + 1, |heads|);
      HistoryStep(c, heads, k);
      HoldingStep(c, heads, k, manifests);
      if heads[k].Some? && heads[k].value !in manifests {
        var id := heads[k].value;
        HeldMeans(c, id);
        var found, counted := FindCopy(Want(c, id), c.copies(id), total, max, amounts);
        if found.Err? {
          return Err(found.causes);
        }
        total := counted;
        if found.value.Some? {
          FoundStep(c, heads, k, manifests, found.value.value);
          manifests := manifests[id := found.value.value];
        }
      }
      commits := commits + [heads[k]];
    }
    assert heads[..|heads|] == heads;
    return Ok((manifests, commits));
  }
}
