/** Publication through a Git branch (`GitStorage` of src/storage.rs): a
    fast-forward push used as the compare-and-swap of HEAD, the local checkout
    it is built in, and the restoration of that checkout after a failure. */
module Carrier {
  import opened Prelude
  import opened CarrierReads

  /** What a Git tree can hold: no empty directory. */
  type GitTree = tree: Tree | Committable(tree) witness EMPTY

  /** A carrier commit is named by its content. */
  datatype Commit = Commit(parent: Option<Commit>, tree: GitTree, stamp: nat)

  function TreeOf(tip: Option<Commit>): GitTree {
    if tip.Some? then tip.value.tree else EMPTY
  }

  /** The manifest ID that a tip's HEAD file names. */
  function HeadAt(tip: Option<Commit>): Option<string> {
    LookupFile(TreeOf(tip), HEAD)
  }

  // ---------------------------------------------------------------------------
  // Fast-forwards

  /** Moving a branch from `before` to `after` is a fast-forward. */
  predicate Descends(after: Option<Commit>, before: Option<Commit>)
    decreases after
  {
    before.None? || after == before || (after.Some? && Descends(after.value.parent, before))
  }

  function Depth(tip: Option<Commit>): nat
    decreases tip
  {
    if tip.None? then 0 else 1 + Depth(tip.value.parent)
  }

  lemma {:induction false} DescendsDepth(after: Option<Commit>, before: Option<Commit>)
    requires Descends(after, before)
    ensures Depth(before) <= Depth(after)
    ensures Depth(before) == Depth(after) ==> before == after
    decreases after
  {
    if before.Some? && after != before {
      DescendsDepth(after.value.parent, before);
    }
  }

  lemma {:induction false} DescendsTransitive(a: Option<Commit>, b: Option<Commit>, c: Option<Commit>)
    requires Descends(a, b) && Descends(b, c)
    ensures Descends(a, c)
    decreases a
  {
    if b.Some? && a != b {
      DescendsTransitive(a.value.parent, b, c);
    }
  }

  /** A branch that moved forward from the base, and that the new commit would
      fast-forward, is still at the base or is already at the new commit. */
  lemma OnlyBaseOrNew(tip: Option<Commit>, base: Option<Commit>, next: Commit)
    requires next.parent == base
    requires Descends(tip, base)
    requires Descends(Some(next), tip)
    ensures tip == base || tip == Some(next)
  {
    if tip != Some(next) && tip.Some? {
      assert Descends(base, tip);
      DescendsDepth(base, tip);
      DescendsDepth(tip, base);
    }
  }

  lemma DescendsItself(tip: Option<Commit>)
    ensures Descends(tip, tip)
  {
  }

  lemma ChildDescends(commit: Commit)
    ensures Descends(Some(commit), commit.parent)
  {
    DescendsItself(commit.parent);
  }

  /** Every tip fast-forwards the one before it. */
  ghost predicate Linear(history: seq<Option<Commit>>) {
    forall i :: 0 <= i < |history| - 1 ==> Descends(history[i + 1], history[i])
  }

  /** Honest clients leave one line of history. */
  lemma {:induction false} HistoryIsOneLine(history: seq<Option<Commit>>, i: nat, j: nat)
    requires Linear(history) && i <= j < |history|
    ensures Descends(history[j], history[i])
    decreases j
  {
    if i < j {
      HistoryIsOneLine(history, i, j - 1);
      assert Descends(history[j - 1 + 1], history[j - 1]);
      DescendsTransitive(history[j], history[j - 1], history[i]);
    }
  }

  /** The branch stood at `from` and its next recorded tip was `to`. */
  ghost predicate Moved(history: seq<Option<Commit>>, start: nat, from: Option<Commit>, to: Option<Commit>) {
    exists k: nat :: start <= k + 1 && k + 1 < |history| && history[k] == from && history[k + 1] == to
  }

  // ---------------------------------------------------------------------------
  // The remote

  /** What the pushing client learns: success, a refusal or an unreachable
      remote, or a failure although the remote may have applied the push. */
  datatype PushOutcome = Delivered | NotApplied | ReplyLost

  class Remote {
    var tip: Option<Commit>
    /** What other clients push, one attempt before each contact of ours. */
    var others: seq<Option<Commit>>
    ghost var history: seq<Option<Commit>>

    constructor (tip: Option<Commit>, others: seq<Option<Commit>>)
      ensures Valid() && this.tip == tip && history == [tip]
    {
      this.tip, this.others := tip, others;
      history := [tip];
    }

    ghost predicate Valid()
      reads this
    {
      history != [] && history[|history| - 1] == tip && Linear(history)
    }

    /** The remote accepts only fast-forwards, from anyone. */
    method Others()
      requires Valid()
      modifies this
      ensures Valid()
      ensures history == old(history) || history == old(history) + [tip]
      ensures Descends(tip, old(tip))
      ensures old(others) == [] ==> others == [] && tip == old(tip)
    {
      if others != [] {
        var next := others[0];
        others := others[1..];
        if Descends(next, tip) {
          tip := next;
          history := history + [next];
        }
      }
    }

    method Fetch(fails: bool) returns (r: Result<Option<Commit>>)
      requires Valid()
      modifies this
      ensures Valid()
      ensures history == old(history) || history == old(history) + [tip]
      ensures Descends(tip, old(tip))
      ensures r == if fails then Err({OtherIo}) else Ok(tip)
      ensures old(others) == [] ==> others == [] && tip == old(tip)
    {
      Others();
      return if fails then Err({OtherIo}) else Ok(tip);
    }

    method Push(next: Commit, outcome: PushOutcome) returns (success: bool)
      requires Valid()
      modifies this
      ensures Valid()
      ensures old(history) <= history && Descends(tip, old(tip))
      ensures success ==> outcome.Delivered? && tip == Some(next)
      ensures outcome.NotApplied? ==> history == old(history) || history == old(history) + [tip]
      ensures old(others) == [] && next.parent == old(tip) && outcome.Delivered? ==> success
      ensures old(others) == [] ==> others == []
      ensures next.parent == old(tip) && tip == Some(next) && tip != old(tip) ==>
        Moved(history, |old(history)|, old(tip), Some(next))
    {
      if next.parent == tip {
        ChildDescends(next);
      }
      Others();
      ghost var seen := tip;
      ghost var before := history;
      if outcome.NotApplied? || !Descends(Some(next), tip) {
        if tip == Some(next) {
          MovedLast(history, |old(history)|, old(history), tip);
        }
        return false;
      }
      if next.parent == old(tip) {
        OnlyBaseOrNew(tip, old(tip), next);
      }
      DescendsTransitive(Some(next), tip, old(tip));
      tip := Some(next);
      history := history + [tip];
      if next.parent == old(tip) && tip != old(tip) {
        if seen == old(tip) {
          MovedLast(history, |old(history)|, before, tip);
        } else {
          assert before == old(history) + [Some(next)];
          assert history[|old(history)| - 1] == old(tip) && history[|old(history)|] == Some(next);
        }
      }
      return outcome.Delivered?;
    }
  }

  lemma MovedLast(history: seq<Option<Commit>>, start: nat, before: seq<Option<Commit>>, tip: Option<Commit>)
    requires before != [] && start <= |before|
    ensures history == before + [tip] ==> Moved(history, start, before[|before| - 1], tip)
  {
    if history == before + [tip] {
      assert history[|before| - 1] == before[|before| - 1] && history[|before| - 1 + 1] == tip;
    }
  }

  // ---------------------------------------------------------------------------
  // The checkout

  datatype CasResult =
    | Published
    | Conflict(expected: Option<string>, actual: Option<string>)
    | Occupied
    | Failed

  /** Which calls fail: the first fetch, a local Git command before the push,
      the push, the fetch after it, recording the new tip, the restoration. */
  datatype Trouble = Trouble(
    fetch: bool, local: bool, push: PushOutcome, refetch: bool, record: bool, restore: bool)

  class GitStorage {
    var baseCommit: Option<Commit>
    /** The local branch, the index and the sparse working tree. */
    var branch: Option<Commit>
    var index: GitTree
    var work: Tree

    constructor (tip: Option<Commit>)
      ensures Clean() && AtBase() && baseCommit == tip
    {
      baseCommit, branch, index, work := tip, tip, TreeOf(tip), EMPTY;
    }

    /** Root files read from the working tree, else from the local branch. */
    function View(name: string): Option<string>
      reads this
    {
      ReadFile(work, TreeOf(branch), name)
    }

    ghost predicate FilesAtBase()
      reads this
    {
      branch == baseCommit && forall name :: View(name) == LookupFile(TreeOf(baseCommit), name)
    }

    /** Every local read yields the bytes of the opened commit, or fails. */
    ghost predicate BytesAtBase()
      reads this
    {
      FilesAtBase() && SameBytes(work, TreeOf(baseCommit))
    }

    /** Every local read, failures included, is that of the opened commit. */
    ghost predicate AtBase()
      reads this
    {
      FilesAtBase() && SameOutcomes(work, TreeOf(baseCommit))
    }

    /** Objects may be staged; the branch and HEAD are the base's. */
    ghost predicate Valid()
      reads this
    {
      branch == baseCommit && View(HEAD) == HeadAt(baseCommit)
    }

    /** The index is the base's too, as always outside a recovery. */
    ghost predicate Clean()
      reads this
    {
      Valid() && index == TreeOf(baseCommit)
    }

    /** `restore_checkout`: branch and index are the target's again. Reads yield
        the target's bytes if and only if the working tree was undisturbed, and
        fail as the target's if and only if, in addition, no directory had been
        made for an object that the target lacks. */
    method RestoreCheckout(target: Option<Commit>, fails: bool) returns (r: Result<()>)
      modifies this`branch, this`index, this`work
      ensures r.Ok? <==> !fails
      ensures r.Ok? ==>
        && branch == target && index == TreeOf(target) && work == Restored(old(work), TreeOf(target))
        && View(HEAD) == HeadAt(target)
        && (ReadsAs(work, TreeOf(target)) <==> Undisturbed(old(work), TreeOf(target)))
        && (FailsAs(work, TreeOf(target)) <==>
             Undisturbed(old(work), TreeOf(target)) && NoStrangers(old(work), TreeOf(target)))
    {
      hide SameBytes, SameOutcomes, ObjectsAgree, NoStrangers, Restored, FilesAgree;
      branch := target;
      index := TreeOf(target);
      if fails {
        return Err({OtherIo});
      }
      work := Restored(work, index);
      RestoredReads(old(work), TreeOf(target));
      return Ok(());
    }

    /** `prepare_recovery`: keep only the objects of the selected chain, in the
        working tree and in the index. */
    method PrepareRecovery(keep: set<string>)
      requires Valid()
      modifies this`index, this`work
      ensures Valid()
      ensures work == OnlyObjects(old(work), keep) && index == OnlyObjects(old(index), keep)
    {
      work := OnlyObjects(work, keep);
      index := OnlyObjects(index, keep);
    }

    /** `commit_and_push_head`: commit the staged files on top of the base and
        push. A conflict is reported only if the observed tip is neither the
        base nor the new commit. */
    method CommitAndPush(expected: Option<string>, next: string, stamp: nat, remote: Remote, trouble: Trouble)
      returns (r: CasResult, commit: Commit)
      requires Valid() && remote.Valid() && remote.tip == baseCommit
      modifies this`branch, this`index, this`work, remote
      ensures remote.Valid() && old(remote.history) <= remote.history
      ensures work == Written(baseCommit, old(work), next)
      ensures Committable(Merged(old(index), work))
      ensures commit == Commit(baseCommit, Merged(old(index), work), stamp)
      ensures r.Published? ==>
        && branch == Some(commit) && index == commit.tree
        && Moved(remote.history, |old(remote.history)|, baseCommit, Some(commit))
      ensures r.Conflict? ==>
        r.expected == expected && r.actual == HeadAt(remote.tip) && remote.tip != baseCommit && remote.tip != Some(commit)
      ensures r.Failed? && !trouble.local && remote.tip == Some(commit) ==> trouble.record || trouble.refetch
      ensures !r.Occupied?
      ensures old(remote.others) == [] && !trouble.local && trouble.push.Delivered? && !trouble.record ==> r.Published?
    {
      hide Descends, Written, Moved, Linear, Merged, Committable;
      work := Written(baseCommit, work, next);
      MergedIsCommittable(index, work);
      var tree: GitTree := Merged(index, work);
      commit := Commit(baseCommit, tree, stamp);
      if trouble.local {
        return Failed, commit;
      }
      index := tree;
      branch := Some(commit);
      NotItsParent(commit);
      var success := remote.Push(commit, trouble.push);
      ghost var pushed := remote.history;
      ghost var seen := remote.tip;
      if !success {
        var latest := remote.Fetch(trouble.refetch);
        if latest.Err? {
          return Failed, commit;
        }
        if latest.value != Some(commit) {
          if latest.value == baseCommit {
            return Failed, commit;
          }
          return Conflict(expected, HeadAt(latest.value)), commit;
        }
        OnlyBaseOrNew(seen, baseCommit, commit);
        if seen == baseCommit {
          MovedLast(remote.history, |old(remote.history)|, pushed, remote.tip);
        } else {
          MovedStays(pushed, remote.history, |old(remote.history)|, baseCommit, Some(commit));
        }
      }
      if trouble.record {
        return Failed, commit;
      }
      return Published, commit;
    }

    /** `publish_checkout_head`: on failure the checkout is restored. */
    method PublishCheckoutHead(expected: Option<string>, next: string, stamp: nat, remote: Remote, trouble: Trouble)
      returns (r: CasResult, commit: Commit)
      requires Valid() && remote.Valid() && remote.tip == baseCommit
      modifies this`branch, this`index, this`work, remote
      ensures remote.Valid() && old(remote.history) <= remote.history
      ensures Committable(Successor(baseCommit, old(index), old(work), next))
      ensures commit == Commit(baseCommit, Successor(baseCommit, old(index), old(work), next), stamp)
      ensures r.Published? ==>
        && branch == Some(commit) && index == commit.tree && work == Written(baseCommit, old(work), next)
        && Moved(remote.history, |old(remote.history)|, baseCommit, Some(commit))
      ensures r.Conflict? ==>
        r.expected == expected && r.actual == HeadAt(remote.tip) && remote.tip != baseCommit && remote.tip != Some(commit)
      ensures r.Failed? && !trouble.local && remote.tip == Some(commit) ==> trouble.record || trouble.refetch
      ensures !r.Occupied?
      ensures old(remote.others) == [] && !trouble.local && trouble.push.Delivered? && !trouble.record ==> r.Published?
      ensures !r.Published? && !trouble.restore ==>
        && Clean()
        && (BytesAtBase() <==> Undisturbed(old(work), TreeOf(baseCommit)))
        && (AtBase() <==> Undisturbed(old(work), TreeOf(baseCommit)) && NoStrangers(old(work), TreeOf(baseCommit)))
    {
      hide Written, Merged, Moved, Linear, SameBytes, SameOutcomes, Undisturbed, NoStrangers, Restored;
      r, commit := CommitAndPush(expected, next, stamp, remote, trouble);
      if !r.Published? {
        WrittenAgrees(baseCommit, old(work), next);
        var restored := RestoreCheckout(baseCommit, trouble.restore);
      }
    }

    /** `compare_and_swap_head`: success is an atomic compare-and-swap on the
        remote. The branch moved from exactly the opened commit, whose HEAD was
        `expected`, to a child whose HEAD is `next` and whose tree is the index
        with every staged file; a clean index is the base's tree, so the child
        keeps every other object of the base. Any other result leaves the opened
        commit in place. If the publication was attempted and the restoration
        succeeds, the reads are the base's under the exact conditions of
        `RestoreCheckout`; if it was not attempted, the checkout is untouched. */
    method CompareAndSwapHead(expected: Option<string>, next: string, stamp: nat, remote: Remote, trouble: Trouble)
      returns (r: CasResult, ghost attempted: bool)
      requires Valid() && remote.Valid() && Descends(remote.tip, baseCommit)
      modifies this, remote
      ensures remote.Valid() && old(remote.history) <= remote.history
      ensures r.Published? ==>
        && attempted
        && baseCommit.Some? && baseCommit.value.parent == old(baseCommit)
        && Moved(remote.history, |old(remote.history)|, old(baseCommit), baseCommit)
        && HeadAt(old(baseCommit)) == expected && HeadAt(baseCommit) == Some(next)
        && baseCommit.value.tree == Successor(old(baseCommit), old(index), old(work), next)
        && Clean()
        && work == Written(old(baseCommit), old(work), next)
        && (BytesAtBase() <==> ObjectsAgree(work, TreeOf(baseCommit)))
        && (AtBase() <==> ObjectsAgree(work, TreeOf(baseCommit)) && NoStrangers(work, TreeOf(baseCommit)))
        && (FreshlyStaged(old(index), old(work)) ==> AtBase())
      ensures r.Published? && old(Clean()) ==> Keeps(TreeOf(old(baseCommit)), TreeOf(baseCommit), old(work))
      ensures !r.Published? ==> baseCommit == old(baseCommit)
      ensures !attempted ==> branch == old(branch) && index == old(index) && work == old(work)
      ensures attempted && !r.Published? && !trouble.restore ==>
        && Clean()
        && (BytesAtBase() <==> Undisturbed(old(work), TreeOf(baseCommit)))
        && (AtBase() <==> Undisturbed(old(work), TreeOf(baseCommit)) && NoStrangers(old(work), TreeOf(baseCommit)))
      ensures r.Published? || !trouble.restore || !attempted ==> Valid()
      ensures attempted ==> HeadAt(old(baseCommit)) == expected && (old(baseCommit).Some? ==> expected.Some?)
      ensures !attempted ==> (r.Failed? <==> trouble.fetch)
      ensures r.Conflict? ==>
        && r.expected == expected
        && ((r.actual == HeadAt(remote.tip) && remote.tip != baseCommit)
            || (r.actual == HeadAt(baseCommit) && r.actual != expected))
      ensures r.Occupied? ==> !attempted && baseCommit.Some? && HeadAt(baseCommit).None?
      ensures old(remote.others) == [] && trouble == Trouble(false, false, Delivered, false, false, false) ==>
        && (r.Published? <==> Swappable(old(baseCommit), old(remote.tip), expected))
        && (r.Conflict? <==> old(remote.tip) != old(baseCommit) || HeadAt(old(baseCommit)) != expected)
    {
      hide Descends, Written, Moved, Linear, SameBytes, SameOutcomes, Undisturbed, NoStrangers, ObjectsAgree, Merged,
        FreshlyStaged, Keeps;
      DescendsItself(baseCommit);
      attempted := false;
      var tip := remote.Fetch(trouble.fetch);
      if tip.Err? {
        return Failed, attempted;
      }
      if tip.value != baseCommit {
        return Conflict(expected, HeadAt(tip.value)), attempted;
      }
      var actual := View(HEAD);
      if actual != expected {
        return Conflict(expected, actual), attempted;
      }
      if actual.None? && baseCommit.Some? {
        return Occupied, attempted;
      }
      attempted := true;
      ghost var fetched := remote.history;
      var commit: Commit;
      r, commit := PublishCheckoutHead(expected, next, stamp, remote, trouble);
      if r.Published? {
        MovedEarlier(remote.history, |fetched|, |old(remote.history)|, baseCommit, Some(commit));
        SuccessorReads(baseCommit, old(index), old(work), next);
        baseCommit := Some(commit);
      }
    }

    /** `compare_and_swap_observed_head`, the variant of recovery: the token is
        the opened commit, and the HEAD file is compared as stored. */
    method CompareAndSwapObservedHead(
      token: Option<Commit>, observed: Option<string>, next: string, stamp: nat, remote: Remote, trouble: Trouble)
      returns (r: CasResult, ghost attempted: bool)
      requires Valid() && remote.Valid() && Descends(remote.tip, baseCommit)
      modifies this, remote
      ensures remote.Valid() && old(remote.history) <= remote.history
      ensures token != old(baseCommit) ==> r.Failed? && !attempted
      ensures r.Published? ==>
        && attempted
        && baseCommit.Some? && baseCommit.value.parent == old(baseCommit)
        && Moved(remote.history, |old(remote.history)|, old(baseCommit), baseCommit)
        && HeadAt(old(baseCommit)) == observed && HeadAt(baseCommit) == Some(next)
        && baseCommit.value.tree == Successor(old(baseCommit), old(index), old(work), next)
        && Clean()
        && work == Written(old(baseCommit), old(work), next)
        && (BytesAtBase() <==> ObjectsAgree(work, TreeOf(baseCommit)))
        && (AtBase() <==> ObjectsAgree(work, TreeOf(baseCommit)) && NoStrangers(work, TreeOf(baseCommit)))
      ensures !r.Published? ==> baseCommit == old(baseCommit)
      ensures !attempted ==> branch == old(branch) && index == old(index) && work == old(work)
      ensures attempted && !r.Published? && !trouble.restore ==>
        && Clean()
        && (BytesAtBase() <==> Undisturbed(old(work), TreeOf(baseCommit)))
        && (AtBase() <==> Undisturbed(old(work), TreeOf(baseCommit)) && NoStrangers(old(work), TreeOf(baseCommit)))
      ensures r.Published? || !trouble.restore || !attempted ==> Valid()
      ensures r.Conflict? ==>
        && r.expected == observed
        && ((r.actual == HeadAt(remote.tip) && remote.tip != baseCommit)
            || (r.actual == HeadAt(baseCommit) && r.actual != observed))
      ensures r.Occupied? ==> !attempted && baseCommit.Some? && HeadAt(baseCommit).None?
      ensures old(remote.others) == [] && trouble == Trouble(false, false, Delivered, false, false, false) ==>
        && (r.Published? <==> token == old(baseCommit) && Swappable(token, old(remote.tip), observed))
        && (r.Conflict? <==> token == old(baseCommit)
                             && (old(remote.tip) != token || HeadAt(token) != observed))
    {
      hide Descends, Written, Moved, Linear, SameBytes, SameOutcomes, Undisturbed, NoStrangers, ObjectsAgree, Merged,
        FreshlyStaged, Keeps;
      if token != baseCommit {
        return Failed, false;
      }
      r, attempted := CompareAndSwapHead(observed, next, stamp, remote, trouble);
    }

    /** `refresh`: afterwards the opened commit is the tip that was fetched, and
        the reads are its under the exact conditions of `RestoreCheckout`. */
    method Refresh(remote: Remote, fetchFails: bool, restoreFails: bool) returns (r: Result<bool>)
      requires Valid() && remote.Valid() && Descends(remote.tip, baseCommit)
      modifies this, remote
      ensures remote.Valid() && old(remote.history) <= remote.history
      ensures r.Ok? ==> Valid() && baseCommit == remote.tip && (r.value <==> baseCommit != old(baseCommit))
      ensures r.Ok? && !r.value ==> branch == old(branch) && index == old(index) && work == old(work)
      ensures r.Ok? && r.value ==>
        && Clean()
        && (BytesAtBase() <==> Undisturbed(old(work), TreeOf(baseCommit)))
        && (AtBase() <==> Undisturbed(old(work), TreeOf(baseCommit)) && NoStrangers(old(work), TreeOf(baseCommit)))
      ensures r.Err? ==> baseCommit == old(baseCommit)
      ensures r.Err? <==> fetchFails || (restoreFails && remote.tip != baseCommit)
    {
      hide SameBytes, SameOutcomes, Undisturbed, NoStrangers, Restored, Descends, Linear;
      var tip := remote.Fetch(fetchFails);
      if tip.Err? {
        return Err(tip.causes);
      }
      if tip.value == baseCommit {
        return Ok(false);
      }
      var restored := RestoreCheckout(tip.value, restoreFails);
      if restored.Err? {
        return Err(restored.causes);
      }
      baseCommit := tip.value;
      return Ok(true);
    }
  }

  /** Reads of a working tree over a commit yield the commit's bytes. */
  ghost predicate ReadsAs(work: Tree, commit: Tree) {
    (forall name :: ReadFile(work, commit, name) == LookupFile(commit, name)) && SameBytes(work, commit)
  }

  ghost predicate FailsAs(work: Tree, commit: Tree) {
    (forall name :: ReadFile(work, commit, name) == LookupFile(commit, name)) && SameOutcomes(work, commit)
  }

  /** No tracked file other than HEAD is replaced, and every object directory
      holds the committed chunks of what the commit can read. */
  ghost predicate Undisturbed(work: Tree, commit: Tree) {
    FilesAgree(work, commit) && ObjectsAgree(work, commit)
  }

  function OnlyObjects(tree: Tree, keep: set<string>): (r: Tree)
    ensures Committable(tree) ==> Committable(r)
  {
    Tree(tree.files, map path | path in tree.objects && path in keep :: tree.objects[path])
  }

  /** The opened commit is still the tip, its HEAD is the expected one, and the
      branch is not someone else's. */
  predicate Swappable(base: Option<Commit>, tip: Option<Commit>, expected: Option<string>) {
    tip == base && HeadAt(base) == expected && (base.Some? ==> expected.Some?)
  }

  /** `write_checkout_head`: HEAD, and on a new branch the notice and FORMAT. */
  function Written(base: Option<Commit>, work: Tree, next: string): Tree {
    work.(files := (if base.None? then work.files["README.md" := "notice"]["FORMAT" := "6"] else work.files)[HEAD := next])
  }

  /** The tree that a publication commits. */
  function Successor(base: Option<Commit>, index: Tree, work: Tree, next: string): Tree {
    Merged(index, Written(base, work, next))
  }

  lemma WrittenAgrees(base: Option<Commit>, work: Tree, next: string)
    ensures Undisturbed(Written(base, work, next), TreeOf(base)) <==> Undisturbed(work, TreeOf(base))
    ensures NoStrangers(Written(base, work, next), TreeOf(base)) <==> NoStrangers(work, TreeOf(base))
  {
    hide Whole, ReadCommit;
    var written := Written(base, work, next);
    assert forall path :: Kept(written, TreeOf(base), path) == Kept(work, TreeOf(base), path);
    if base.Some? {
      forall name | name != HEAD
        ensures LookupFile(written, name) == LookupFile(work, name)
      {
      }
      assert FilesAgree(written, TreeOf(base)) <==> FilesAgree(work, TreeOf(base)) by {
        FilesAgreeByLookup(written, work, TreeOf(base));
      }
    }
  }

  lemma FilesAgreeByLookup(a: Tree, b: Tree, commit: Tree)
    requires forall name :: name != HEAD ==> LookupFile(a, name) == LookupFile(b, name)
    ensures FilesAgree(a, commit) <==> FilesAgree(b, commit)
  {
    forall name | name != HEAD
      ensures name in a.files <==> name in b.files
      ensures name in a.files ==> a.files[name] == b.files[name]
    {
      assert LookupFile(a, name) == LookupFile(b, name);
    }
  }

  /** Every object of the old tree that was not staged is in the new one as it
      was, and staged chunk files replace only their own names. */
  ghost predicate Keeps(before: Tree, after: Tree, work: Tree) {
    forall path ::
      && (path !in work.objects ==> DirOf(after, path) == DirOf(before, path))
      && DirOf(after, path) == DirOf(before, path) + DirOf(work, path)
  }

  /** What a published tree reads as and keeps. */
  lemma SuccessorReads(base: Option<Commit>, index: Tree, work: Tree, next: string)
    ensures
      var written := Written(base, work, next);
      var tree := Successor(base, index, work, next);
      && LookupFile(tree, HEAD) == Some(next)
      && (forall name :: ReadFile(written, tree, name) == LookupFile(tree, name))
      && (SameBytes(written, tree) <==> ObjectsAgree(written, tree))
      && (SameOutcomes(written, tree) <==> ObjectsAgree(written, tree) && NoStrangers(written, tree))
      && (FreshlyStaged(index, work) ==> SameOutcomes(written, tree))
      && Keeps(index, tree, work)
  {
    hide SameBytes, SameOutcomes, ObjectsAgree, NoStrangers, FreshlyStaged, Keeps, Merged;
    var written := Written(base, work, next);
    MergedReads(index, written);
    WrittenStaged(index, base, work, next);
    if FreshlyStaged(index, work) {
      StagedReads(index, written);
    }
    MergedHead(index, written, next);
    MergedKeepsAll(index, base, work, next);
  }

  lemma WrittenStaged(index: Tree, base: Option<Commit>, work: Tree, next: string)
    ensures FreshlyStaged(index, Written(base, work, next)) <==> FreshlyStaged(index, work)
  {
    hide Whole;
  }

  lemma MergedHead(index: Tree, written: Tree, next: string)
    requires LookupFile(written, HEAD) == Some(next)
    ensures LookupFile(Merged(index, written), HEAD) == Some(next)
  {
  }

  lemma MergedKeepsAll(index: Tree, base: Option<Commit>, work: Tree, next: string)
    ensures Keeps(index, Successor(base, index, work, next), work)
  {
    hide Merged;
    var written := Written(base, work, next);
    forall path
      ensures DirOf(Merged(index, written), path) == DirOf(index, path) + DirOf(work, path)
      ensures path !in work.objects ==> DirOf(Merged(index, written), path) == DirOf(index, path)
    {
      MergedHolds(index, written, path);
      assert DirOf(written, path) == DirOf(work, path);
      assert DirOf(index, path) + map[] == DirOf(index, path);
    }
  }

  /** What a recovery publishes after `prepare_recovery`: of all the objects that
      would have been committed, exactly those of the selected chain. */
  lemma RecoveryPublishesChain(base: Option<Commit>, index: Tree, work: Tree, next: string, keep: set<string>)
    ensures
      var tree := Successor(base, OnlyObjects(index, keep), OnlyObjects(work, keep), next);
      && (forall path <- tree.objects :: path in keep)
      && (forall path <- keep :: DirOf(tree, path) == DirOf(Successor(base, index, work, next), path))
      && LookupFile(tree, HEAD) == Some(next)
  {
    hide Merged;
    var kept := OnlyObjects(index, keep);
    var written := Written(base, OnlyObjects(work, keep), next);
    forall path
      ensures path !in keep ==> path !in Merged(kept, written).objects
      ensures path in keep ==> DirOf(Merged(kept, written), path) == DirOf(Successor(base, index, work, next), path)
    {
      MergedHolds(kept, written, path);
      MergedHolds(index, Written(base, work, next), path);
    }
    MergedHead(kept, written, next);
  }

  lemma {:induction false} NotItsParent(commit: Commit)
    ensures Some(commit) != commit.parent
  {
    assert Depth(Some(commit)) == 1 + Depth(commit.parent);
  }

  lemma MovedStays(
    shorter: seq<Option<Commit>>, longer: seq<Option<Commit>>, start: nat, from: Option<Commit>, to: Option<Commit>)
    requires Moved(shorter, start, from, to) && shorter <= longer
    ensures Moved(longer, start, from, to)
  {
    var k: nat :| start <= k + 1 && k + 1 < |shorter| && shorter[k] == from && shorter[k + 1] == to;
    assert longer[k] == from && longer[k + 1] == to;
  }

  lemma MovedEarlier(history: seq<Option<Commit>>, later: nat, start: nat, from: Option<Commit>, to: Option<Commit>)
    requires Moved(history, later, from, to) && start <= later
    ensures Moved(history, start, from, to)
  {
    var k: nat :| later <= k + 1 && k + 1 < |history| && history[k] == from && history[k + 1] == to;
    assert history[k] == from && history[k + 1] == to;
  }
}
