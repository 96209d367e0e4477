/** Git objects as a graph, tag resolution and the connectivity check:
    `resolve_tag_chain` and `ensure_refs_connected_since` of src/git.rs. */
module GitGraph {
  import opened Prelude
  import opened Manifests

  datatype Kind = CommitKind | TreeKind | BlobKind | TagKind

  /** Submodule links of a tree name another object database, so they are not
      children. `TornTag` is an annotated tag whose header does not parse. */
  datatype GitObject =
    | Commit(tree: Oid, parents: set<Oid>)
    | Tree(entries: set<Oid>)
    | Blob
    | Tag(target: Oid, declared: Kind)
    | TornTag
  {
    function KindOf(): Kind {
      match this
      case Commit(_, _) => CommitKind
      case Tree(_) => TreeKind
      case Blob => BlobKind
      case Tag(_, _) => TagKind
      case TornTag => TagKind
    }

    function Children(): set<Oid> {
      match this
      case Commit(tree, parents) => {tree} + parents
      case Tree(entries) => entries
      case Blob => {}
      case Tag(target, _) => {target}
      case TornTag => {}
    }
  }

  /** Every object anyone ever made, by its ID. A repository holds some of
      them: a set of IDs. Content addressing fixes what an ID stands for. */
  type Universe = map<Oid, GitObject>

  function Children(g: Universe, o: Oid): set<Oid> {
    if o in g then g[o].Children() else {}
  }

  // ---------------------------------------------------------------------------
  // Reachability

  predicate IsPath(g: Universe, path: seq<Oid>) {
    path != [] && forall i :: 0 <= i < |path| - 1 ==> path[i + 1] in Children(g, path[i])
  }

  ghost predicate Reaches(g: Universe, from: Oid, to: Oid) {
    exists path :: IsPath(g, path) && path[0] == from && path[|path| - 1] == to
  }

  /** `o` is reachable from one of the roots. */
  ghost predicate Reachable(g: Universe, roots: set<Oid>, o: Oid) {
    exists root <- roots :: Reaches(g, root, o)
  }

  /** The repository holds everything reachable from the roots. */
  ghost predicate Complete(g: Universe, store: set<Oid>, roots: set<Oid>) {
    forall o :: Reachable(g, roots, o) ==> o in store
  }

  lemma ReachesSelf(g: Universe, o: Oid)
    ensures Reaches(g, o, o)
  {
    assert IsPath(g, [o]) && [o][0] == o;
  }

  lemma ReachesStep(g: Universe, from: Oid, via: Oid, to: Oid)
    requires Reaches(g, from, via) && to in Children(g, via)
    ensures Reaches(g, from, to)
  {
    var path :| IsPath(g, path) && path[0] == from && path[|path| - 1] == via;
    var longer := path + [to];
    assert IsPath(g, longer) && longer[0] == from && longer[|longer| - 1] == to;
  }

  lemma {:induction false} PathReaches(g: Universe, from: Oid, path: seq<Oid>)
    requires IsPath(g, path) && Reaches(g, from, path[0])
    ensures forall i :: 0 <= i < |path| ==> Reaches(g, from, path[i])
  {
    if |path| > 1 {
      ReachesStep(g, from, path[0], path[1]);
      PathReaches(g, from, path[1..]);
      assert forall i :: 1 <= i < |path| ==> path[i] == path[1..][i - 1];
    }
  }

  lemma ReachesTransitive(g: Universe, a: Oid, b: Oid, c: Oid)
    requires Reaches(g, a, b) && Reaches(g, b, c)
    ensures Reaches(g, a, c)
  {
    var path :| IsPath(g, path) && path[0] == b && path[|path| - 1] == c;
    PathReaches(g, a, path);
  }

  lemma ReachableTransitive(g: Universe, roots: set<Oid>, o: Oid, to: Oid)
    requires Reachable(g, roots, o) && Reaches(g, o, to)
    ensures Reachable(g, roots, to)
  {
    var root :| root in roots && Reaches(g, root, o);
    ReachesTransitive(g, root, o, to);
  }

  // ---------------------------------------------------------------------------
  // Tag chains

  datatype Target = Target(oid: Oid, kind: Kind)

  /** Follows annotated tags that are present, checking each declared type. */
  function Resolve(g: Universe, store: set<Oid>, current: Oid, seen: set<Oid>): Result<Target>
    decreases store - seen
  {
    if current in seen then Err({Rejected})
    else if current !in store || current !in g then Err({Rejected})
    else
      match g[current]
      case Tag(target, declared) =>
        if target in store && target in g && g[target].KindOf() == declared
        then Resolve(g, store, target, seen + {current})
        else Err({Rejected})
      case TornTag => Err({Rejected})
      case other => Ok(Target(current, other.KindOf()))
  }

  /** `resolve_tag_chain`: ends on every finite store, cyclic ones included. */
  method ResolveTagChain(g: Universe, store: set<Oid>, start: Oid) returns (r: Result<Target>)
    ensures r == Resolve(g, store, start, {})
  {
    var current := start;
    var seen: set<Oid> := {};
    while true
      invariant Resolve(g, store, start, {}) == Resolve(g, store, current, seen)
      decreases store - seen
    {
      if current in seen {
        return Err({Rejected});
      }
      if current !in store || current !in g {
        return Err({Rejected});
      }
      match g[current] {
        case Tag(target, declared) =>
          if target !in store || target !in g || g[target].KindOf() != declared {
            return Err({Rejected});
          }
          seen := seen + {current};
          current := target;
        case TornTag =>
          return Err({Rejected});
        case other =>
          return Ok(Target(current, other.KindOf()));
      }
    }
  }

  /** Resolution stays on the graph: the target and every tag on the way are
      reachable, and what lies beyond the tags is what lies beyond the target. */
  lemma {:induction false} ResolveReaches(g: Universe, store: set<Oid>, current: Oid, seen: set<Oid>)
    requires Resolve(g, store, current, seen).Ok?
    ensures Reaches(g, current, Resolve(g, store, current, seen).value.oid)
    ensures forall o :: Reaches(g, current, o) ==>
      o in store || Reaches(g, Resolve(g, store, current, seen).value.oid, o)
    decreases store - seen
  {
    hide Reaches;
    var r := Resolve(g, store, current, seen).value;
    ReachesSelf(g, current);
    if g[current].Tag? {
      var target := g[current].target;
      ResolveReaches(g, store, target, seen + {current});
      ReachesStep(g, current, current, target);
      ReachesTransitive(g, current, target, r.oid);
      forall o | Reaches(g, current, o)
        ensures o in store || Reaches(g, r.oid, o)
      {
        OnlyThroughTarget(g, current, o);
      }
    }
  }

  lemma OnlyThroughTarget(g: Universe, tag: Oid, o: Oid)
    requires tag in g && g[tag].Tag? && Reaches(g, tag, o)
    ensures o == tag || Reaches(g, g[tag].target, o)
  {
    var path :| IsPath(g, path) && path[0] == tag && path[|path| - 1] == o;
    if |path| > 1 {
      assert path[1] in Children(g, path[0]);
      var rest := path[1..];
      assert IsPath(g, rest) by {
        forall i | 0 <= i < |rest| - 1
          ensures rest[i + 1] in Children(g, rest[i])
        {
          assert path[i + 2] in Children(g, path[i + 1]);
        }
      }
      assert rest[0] == g[tag].target && rest[|rest| - 1] == o;
    }
  }

  // ---------------------------------------------------------------------------
  // The walk of `git rev-list --objects --missing=print`

  /** `path` leads the walk from a root to its last object: it enters nothing
      excluded and passes only through objects that are present. */
  predicate WalkPath(g: Universe, store: set<Oid>, excluded: set<Oid>, path: seq<Oid>) {
    && IsPath(g, path)
    && (forall i :: 0 <= i < |path| ==> path[i] !in excluded)
    && (forall i :: 0 <= i < |path| - 1 ==> path[i] in store)
  }

  ghost predicate Visits(g: Universe, store: set<Oid>, excluded: set<Oid>, roots: set<Oid>, o: Oid) {
    exists path :: WalkPath(g, store, excluded, path) && path[0] in roots && path[|path| - 1] == o
  }

  /** No object the walk visits is missing. */
  ghost predicate WalkAccepts(g: Universe, store: set<Oid>, excluded: set<Oid>, roots: set<Oid>) {
    forall o :: Visits(g, store, excluded, roots, o) ==> o in store
  }

  /** A path of an accepted walk is present up to the first excluded object. */
  lemma {:induction false} AcceptedPath(
    g: Universe, store: set<Oid>, excluded: set<Oid>, roots: set<Oid>, path: seq<Oid>, n: nat)
    requires WalkAccepts(g, store, excluded, roots)
    requires IsPath(g, path) && path[0] in roots && n < |path|
    requires forall i :: 0 <= i <= n ==> path[i] !in excluded
    ensures forall i :: 0 <= i <= n ==> path[i] in store
  {
    if n > 0 {
      AcceptedPath(g, store, excluded, roots, path, n - 1);
    }
    var prefix := path[..n + 1];
    assert WalkPath(g, store, excluded, prefix) && prefix[0] in roots && prefix[|prefix| - 1] == path[n];
    assert Visits(g, store, excluded, roots, path[n]);
  }

  ghost predicate WithinReach(g: Universe, tips: set<Oid>, excluded: set<Oid>) {
    forall o <- excluded :: Reachable(g, tips, o)
  }

  /** The frontier walk equals the full walk: if the repository holds
      everything reachable from a trusted frontier and the walk excludes only
      objects reachable from it, no visited object is missing if and only if
      everything reachable from the roots is present. */
  lemma FrontierWalkEqualsFull(g: Universe, store: set<Oid>, excluded: set<Oid>, roots: set<Oid>, frontier: set<Oid>)
    requires Complete(g, store, frontier)
    requires WithinReach(g, frontier, excluded)
    ensures WalkAccepts(g, store, excluded, roots) <==> Complete(g, store, roots)
  {
    if WalkAccepts(g, store, excluded, roots) {
      forall o | Reachable(g, roots, o)
        ensures o in store
      {
        var root :| root in roots && Reaches(g, root, o);
        var path :| IsPath(g, path) && path[0] == root && path[|path| - 1] == o;
        AcceptedObject(g, store, excluded, roots, frontier, path);
      }
    }
    if Complete(g, store, roots) {
      forall o | Visits(g, store, excluded, roots, o)
        ensures o in store
      {
        var path :| WalkPath(g, store, excluded, path) && path[0] in roots && path[|path| - 1] == o;
        assert Reaches(g, path[0], o);
        assert Reachable(g, roots, o);
      }
    }
  }

  lemma AcceptedObject(
    g: Universe, store: set<Oid>, excluded: set<Oid>, roots: set<Oid>, frontier: set<Oid>, path: seq<Oid>)
    requires Complete(g, store, frontier)
    requires WithinReach(g, frontier, excluded)
    requires WalkAccepts(g, store, excluded, roots)
    requires IsPath(g, path) && path[0] in roots
    ensures path[|path| - 1] in store
  {
    hide Reachable, WalkAccepts, Reaches;
    if k :| 0 <= k < |path| && path[k] in excluded {
      var rest := path[k..];
      assert IsPath(g, rest) by {
        forall i | 0 <= i < |rest| - 1
          ensures rest[i + 1] in Children(g, rest[i])
        {
          assert path[k + i + 1] in Children(g, path[k + i]);
        }
      }
      PathIsReach(g, rest);
      ReachableTransitive(g, frontier, path[k], path[|path| - 1]);
    } else {
      AcceptedPath(g, store, excluded, roots, path, |path| - 1);
    }
  }

  lemma PathIsReach(g: Universe, path: seq<Oid>)
    requires IsPath(g, path)
    ensures Reaches(g, path[0], path[|path| - 1])
  {
  }

  // ---------------------------------------------------------------------------
  // Refs

  datatype RefKind = Branch | TagRef

  /** `InnerRefKind::of` */
  function RefKindOf(name: RefName): Result<RefKind> {
    if "refs/heads/" <= name then Ok(Branch)
    else if "refs/tags/" <= name then Ok(TagRef)
    else Err({Rejected})
  }

  predicate SupportedTarget(refKind: RefKind, kind: Kind) {
    kind == CommitKind || (refKind == TagRef && (kind == TreeKind || kind == BlobKind))
  }

  /** One ref resolves to a kind of object its namespace allows. */
  predicate ResolvesWell(g: Universe, store: set<Oid>, name: RefName, oid: Oid) {
    && RefKindOf(name).Ok?
    && Resolve(g, store, oid, {}).Ok?
    && SupportedTarget(RefKindOf(name).value, Resolve(g, store, oid, {}).value.kind)
  }

  /** The full check: every ref resolves, and everything reachable is present. */
  ghost predicate RefsConnected(g: Universe, store: set<Oid>, refs: Refs) {
    && (forall name <- refs :: ResolvesWell(g, store, name, refs[name]))
    && Complete(g, store, refs.Values)
  }

  /** The answers of the Git processes the check starts: `git ls-tree -r -t`
      with the presence of each entry, and `git rev-list` from some roots while
      excluding some tips. */
  datatype GitTools = GitTools(treeConnected: Oid -> bool, walk: (set<Oid>, set<Oid>) -> bool)

  /** Git may exclude less than everything the tips reach, never more. */
  ghost predicate WalkContract(g: Universe, store: set<Oid>, tools: GitTools, roots: set<Oid>, tips: set<Oid>) {
    exists excluded ::
      && WithinReach(g, tips, excluded)
      && (tools.walk(roots, tips) <==> WalkAccepts(g, store, excluded, roots))
  }

  ghost predicate Faithful(g: Universe, store: set<Oid>, tools: GitTools) {
    && (forall tree :: tools.treeConnected(tree) <==> Complete(g, store, {tree}))
    && (forall roots, tips :: WalkContract(g, store, tools, roots, tips))
  }

  /** One ref passes the resolution loop. */
  ghost predicate PassesLoop(g: Universe, store: set<Oid>, name: RefName, oid: Oid) {
    && ResolvesWell(g, store, name, oid)
    && var target := Resolve(g, store, oid, {}).value;
       target.kind == TreeKind ==> Complete(g, store, {target.oid})
  }

  predicate IsCommitTarget(g: Universe, store: set<Oid>, oid: Oid) {
    Resolve(g, store, oid, {}).Ok? && Resolve(g, store, oid, {}).value.kind == CommitKind
  }

  function TargetOf(g: Universe, store: set<Oid>, oid: Oid): Oid {
    var r := Resolve(g, store, oid, {});
    if r.Ok? then r.value.oid else oid
  }

  function CommitTargets(g: Universe, store: set<Oid>, refs: Refs): set<Oid> {
    set name | name in refs && IsCommitTarget(g, store, refs[name]) :: TargetOf(g, store, refs[name])
  }

  /** The resolution loop over one map of refs. */
  method ResolveRefs(g: Universe, store: set<Oid>, tools: GitTools, refs: Refs) returns (r: Result<set<Oid>>)
    requires Faithful(g, store, tools)
    ensures r.Ok? <==> forall name <- refs :: PassesLoop(g, store, name, refs[name])
    ensures r.Ok? ==> r.value == CommitTargets(g, store, refs)
  {
    hide Resolve, Complete, WalkContract, RefKindOf;
    var commits: set<Oid> := {};
    var remaining := refs.Keys;
    while remaining != {}
      invariant remaining <= refs.Keys
      invariant forall name <- refs :: name !in remaining ==> PassesLoop(g, store, name, refs[name])
      invariant commits == set name | name in refs && name !in remaining && IsCommitTarget(g, store, refs[name])
                             :: TargetOf(g, store, refs[name])
    {
      var name :| name in remaining;
      var refKind := RefKindOf(name);
      if refKind.Err? {
        return Err({Rejected});
      }
      var resolved := ResolveTagChain(g, store, refs[name]);
      if resolved.Err? {
        return Err({Rejected});
      }
      var target := resolved.value;
      if !SupportedTarget(refKind.value, target.kind) {
        return Err({Rejected});
      }
      if target.kind == TreeKind && !tools.treeConnected(target.oid) {
        return Err({Rejected});
      }
      if target.kind == CommitKind {
        commits := commits + {target.oid};
      }
      remaining := remaining - {name};
    }
    return Ok(commits);
  }

  lemma BlobReachesItself(g: Universe, blob: Oid, o: Oid)
    requires blob in g && g[blob].Blob? && Reaches(g, blob, o)
    ensures o == blob
  {
    var path :| IsPath(g, path) && path[0] == blob && path[|path| - 1] == o;
    var i := if |path| > 1 then 1 else 0;
    assert i == 0 || path[i] in Children(g, path[i - 1]);
  }

  lemma {:induction false} ResolvedIsPresent(g: Universe, store: set<Oid>, current: Oid, seen: set<Oid>)
    requires Resolve(g, store, current, seen).Ok?
    ensures var target := Resolve(g, store, current, seen).value;
      target.oid in store && target.oid in g && g[target.oid].KindOf() == target.kind && target.kind != TagKind
    decreases store - seen
  {
    if g[current].Tag? {
      ResolvedIsPresent(g, store, g[current].target, seen + {current});
    }
  }

  /** Past the tags, a ref is complete exactly when its target is. */
  lemma RefCompleteness(g: Universe, store: set<Oid>, name: RefName, oid: Oid)
    requires PassesLoop(g, store, name, oid)
    ensures Complete(g, store, {oid}) <==>
      (IsCommitTarget(g, store, oid) ==> Complete(g, store, {TargetOf(g, store, oid)}))
  {
    hide Resolve, Reaches;
    var target := Resolve(g, store, oid, {}).value;
    ResolvedIsPresent(g, store, oid, {});
    ResolveReaches(g, store, oid, {});
    if Complete(g, store, {oid}) {
      forall o | Reachable(g, {target.oid}, o)
        ensures o in store
      {
        ReachesTransitive(g, oid, target.oid, o);
        assert Reachable(g, {oid}, o);
      }
    }
    if target.kind != CommitKind || Complete(g, store, {target.oid}) {
      forall o | Reachable(g, {oid}, o)
        ensures o in store
      {
        if Reaches(g, target.oid, o) {
          if target.kind == BlobKind {
            BlobReachesItself(g, target.oid, o);
          }
          assert Reachable(g, {target.oid}, o);
        }
      }
    }
  }

  lemma CompleteByRoot(g: Universe, store: set<Oid>, roots: set<Oid>)
    ensures Complete(g, store, roots) <==> forall root <- roots :: Complete(g, store, {root})
  {
    hide Reaches;
    if Complete(g, store, roots) {
      forall root, o | root in roots && Reachable(g, {root}, o)
        ensures o in store
      {
        assert Reachable(g, roots, o);
      }
    }
    if forall root <- roots :: Complete(g, store, {root}) {
      forall o | Reachable(g, roots, o)
        ensures o in store
      {
        var root :| root in roots && Reaches(g, root, o);
        assert Reachable(g, {root}, o);
      }
    }
  }

  lemma RefsCompleteness(g: Universe, store: set<Oid>, refs: Refs)
    requires forall name <- refs :: PassesLoop(g, store, name, refs[name])
    ensures Complete(g, store, refs.Values) <==> Complete(g, store, CommitTargets(g, store, refs))
  {
    hide Resolve, Complete, PassesLoop, TargetOf, IsCommitTarget;
    CompleteByRoot(g, store, refs.Values);
    CompleteByRoot(g, store, CommitTargets(g, store, refs));
    forall name | name in refs
      ensures Complete(g, store, {refs[name]}) <==>
        (IsCommitTarget(g, store, refs[name]) ==> Complete(g, store, {TargetOf(g, store, refs[name])}))
      ensures refs[name] in refs.Values
      ensures IsCommitTarget(g, store, refs[name]) ==> TargetOf(g, store, refs[name]) in CommitTargets(g, store, refs)
    {
      RefCompleteness(g, store, name, refs[name]);
    }
  }

  lemma ConnectedPasses(g: Universe, store: set<Oid>, refs: Refs)
    requires RefsConnected(g, store, refs)
    ensures forall name <- refs :: PassesLoop(g, store, name, refs[name])
  {
    hide Resolve, Complete;
    CompleteByRoot(g, store, refs.Values);
    forall name | name in refs
      ensures PassesLoop(g, store, name, refs[name])
    {
      assert refs[name] in refs.Values;
      TargetComplete(g, store, refs[name]);
    }
  }

  lemma TargetComplete(g: Universe, store: set<Oid>, oid: Oid)
    requires Complete(g, store, {oid}) && Resolve(g, store, oid, {}).Ok?
    ensures Complete(g, store, {Resolve(g, store, oid, {}).value.oid})
  {
    hide Resolve, Reaches;
    var target := Resolve(g, store, oid, {}).value;
    ResolveReaches(g, store, oid, {});
    forall o | Reachable(g, {target.oid}, o)
      ensures o in store
    {
      ReachesTransitive(g, oid, target.oid, o);
      assert Reachable(g, {oid}, o);
    }
  }

  ghost predicate AllResolveWell(g: Universe, store: set<Oid>, refs: Refs) {
    forall name <- refs :: ResolvesWell(g, store, name, refs[name])
  }

  /** `ensure_refs_connected_since`: when everything reachable from the verified
      refs is local, the incremental check passes if and only if the full check
      would, for branches, tag chains and tags of trees or blobs, provided the
      verified refs themselves still resolve. With no verified refs it is the
      full check. */
  method EnsureRefsConnectedSince(g: Universe, store: set<Oid>, tools: GitTools, refs: Refs, verified: Refs)
    returns (r: Result<()>)
    requires Faithful(g, store, tools)
    ensures Complete(g, store, verified.Values) ==>
      (r.Ok? <==> refs == map[] || (RefsConnected(g, store, refs) && AllResolveWell(g, store, verified)))
  {
    hide Resolve, Complete, WalkContract, ResolvesWell, PassesLoop, CommitTargets, WalkAccepts, AllResolveWell;
    if refs == map[] {
      return Ok(());
    }
    var commits := ResolveRefs(g, store, tools, refs);
    if commits.Err? {
      if RefsConnected(g, store, refs) {
        ConnectedPasses(g, store, refs);
      }
      return Err({Rejected});
    }
    RefsCompleteness(g, store, refs);
    PassingResolves(g, store, refs);
    var frontier := ResolveRefs(g, store, tools, verified);
    if Complete(g, store, verified.Values) {
      CompletePasses(g, store, verified);
    }
    if frontier.Err? {
      return Err({Rejected});
    }
    if commits.value == {} {
      NothingToReach(g, store);
      return Ok(());
    }
    if Complete(g, store, verified.Values) {
      RefsCompleteness(g, store, verified);
      WalkDecides(g, store, tools, commits.value, frontier.value);
    }
    if !tools.walk(commits.value, frontier.value) {
      return Err({Rejected});
    }
    return Ok(());
  }

  lemma CompletePasses(g: Universe, store: set<Oid>, refs: Refs)
    requires Complete(g, store, refs.Values)
    ensures AllResolveWell(g, store, refs) <==> forall name <- refs :: PassesLoop(g, store, name, refs[name])
  {
    hide Resolve, Complete, ResolvesWell;
    if AllResolveWell(g, store, refs) {
      ConnectedPasses(g, store, refs);
    }
  }

  lemma EmptyIsConnected(g: Universe, store: set<Oid>)
    ensures RefsConnected(g, store, map[])
  {
    var none: Refs := map[];
    assert none.Values == {};
  }

  lemma NothingToReach(g: Universe, store: set<Oid>)
    ensures Complete(g, store, {})
  {
  }

  lemma PassingResolves(g: Universe, store: set<Oid>, refs: Refs)
    requires forall name <- refs :: PassesLoop(g, store, name, refs[name])
    ensures RefsConnected(g, store, refs) <==> Complete(g, store, refs.Values)
  {
    hide Resolve, Complete, ResolvesWell;
  }

  lemma WalkDecides(g: Universe, store: set<Oid>, tools: GitTools, roots: set<Oid>, tips: set<Oid>)
    requires Faithful(g, store, tools) && Complete(g, store, tips)
    ensures tools.walk(roots, tips) <==> Complete(g, store, roots)
  {
    hide Complete, WalkAccepts, Reachable;
    assert WalkContract(g, store, tools, roots, tips);
    var excluded :| WithinReach(g, tips, excluded)
      && (tools.walk(roots, tips) <==> WalkAccepts(g, store, excluded, roots));
    FrontierWalkEqualsFull(g, store, excluded, roots, tips);
  }
}
