/** Several machines publishing to one honest storage: `push`, `change_policy`
    and `commit` of src/repository.rs over the head compare-and-swap. */
module SharedHistory {
  import opened Prelude
  import opened Policy
  import opened Manifests
  import opened Chain
  import opened Authenticity
  import opened Operations
  import opened Continuity
  import opened GitGraph
  import P = Push

  /** The chain that HEAD names, and the view each machine last loaded. */
  datatype System = System(head: seq<Entry>, loaded: map<nat, seq<Entry>>)

  /** One atomic step. Loading and committing are apart, so any number of other
      machines may commit in between. */
  datatype Action =
    | Load(who: nat)
    | PushCommit(who: nat, local: P.Local, pushes: seq<P.RefPush>, op: Operation)
    | MembershipCommit(who: nat, op: Operation)

  /** `compare_and_swap_head` moves HEAD only from the expected ID. */
  function Swap(head: seq<Entry>, expected: Id, next: seq<Entry>): seq<Entry>
    requires head != []
  {
    if head[0].id == expected then next else head
  }

  function Commit(s: System, who: nat, op: Operation): System
    requires s.head != []
  {
    if who !in s.loaded || s.loaded[who] == [] then s
    else
      var view := s.loaded[who];
      var next := Apply(op, view);
      if next.Err? then s else s.(head := Swap(s.head, view[0].id, next.value))
  }

  function Next(s: System, action: Action): System
    requires s.head != []
  {
    match action
    case Load(who) => s.(loaded := s.loaded[who := s.head])
    case PushCommit(who, _, _, op) => Commit(s, who, op)
    case MembershipCommit(who, op) => Commit(s, who, op)
  }

  /** A local repository that answers ancestry truthfully. */
  ghost predicate Truthful(g: Universe, local: P.Local) {
    forall a, b :: local.isAncestor(a, b) == Ok(true) ==> Reaches(g, b, a)
  }

  /** What a client publishes was computed from the view it loaded. */
  ghost predicate Computed(g: Universe, view: seq<Entry>, action: Action)
    requires view != []
  {
    match action
    case Load(_) => true
    case PushCommit(_, local, pushes, op) =>
      && op.PublishRefs?
      && Truthful(g, local)
      && P.Applied(local, view[0].manifest.refs, pushes, op.refs)
      && FreshPack(view, op.pack)
    case MembershipCommit(_, op) => op.Add? || op.Revoke?
  }

  ghost predicate Possible(g: Universe, s: System, action: Action) {
    action.who in s.loaded && s.loaded[action.who] != [] ==> Computed(g, s.loaded[action.who], action)
  }

  /** The head is accepted, and every view is a stage that the head passed. */
  ghost predicate Good(s: System, root: Root) {
    && Authentic(s.head, root)
    && forall who <- s.loaded :: Authentic(s.loaded[who], root) && Extends(s.head, s.loaded[who])
  }

  ghost predicate IsRun(g: Universe, states: seq<System>, actions: seq<Action>) {
    && |states| == |actions| + 1
    && forall i :: 0 <= i < |actions| ==> StepOf(g, states[i], actions[i], states[i + 1])
  }

  ghost predicate StepOf(g: Universe, before: System, action: Action, after: System) {
    before.head != [] && Possible(g, before, action) && after == Next(before, action)
  }

  // ---------------------------------------------------------------------------
  // One commit

  /** The refs an operation gives its successor. */
  function RefsAfter(op: Operation, parent: Entry): Refs {
    if op.PublishRefs? then op.refs else parent.manifest.refs
  }

  lemma AppendsOne(op: Operation, chain: seq<Entry>)
    requires chain != [] && !op.Recover?
    requires Apply(op, chain).Ok?
    ensures
      var next := Apply(op, chain).value;
      && next != [] && next[1..] == chain
      && next[0].manifest.previous == Some(chain[0].id)
      && next[0].manifest.refs == RefsAfter(op, chain[0])
  {
    hide Sealing.SealAndStore, FindDevice, Successor, ValidateSuccessor, ValidActiveRoles, Revoked;
    var next := Apply(op, chain).value;
    match op
    case PublishRefs(refs, pack, signer, drawn) =>
      var m := WriterManifest(chain[0], refs, pack, drawn).value;
      StoredManifest(Some(chain[0]), chain[0].policy, None, drawn.key, m, signer, drawn.draws, next[0]);
    case Add(record, signer, drawn) =>
      ChangeAppends(chain[0], chain[0].policy.body.devices + [record], signer, drawn);
    case Revoke(id, signer, drawn) =>
      var stamp := chain[0].policy.body.generation + 1;
      ChangeAppends(chain[0], Revoked(chain[0].policy.body.devices, id, stamp), signer, drawn);
  }

  lemma ChangeAppends(parent: Entry, devices: seq<DeviceRecord>, signer: KeyFile, drawn: Drawn)
    requires ChangePolicy(parent, devices, signer, drawn).Ok?
    ensures
      var e := ChangePolicy(parent, devices, signer, drawn).value;
      e.manifest.previous == Some(parent.id) && e.manifest.refs == parent.manifest.refs
  {
    hide Sealing.SealAndStore, Successor, ValidateSuccessor;
    var policy := Successor(parent.policy, devices, signer).value;
    var m := TransitionManifest(parent, policy.0, policy.1, drawn).value;
    var e := ChangePolicy(parent, devices, signer, drawn).value;
    StoredManifest(Some(parent), policy.0, Some(parent.policy), drawn.key, m, signer, drawn.draws, e);
  }

  /** One head replaced another in a shared history: it is the same chain, or it
      adds one generation that names the replaced head as its parent. */
  ghost predicate Succeeds(after: seq<Entry>, before: seq<Entry>) {
    || after == before
    || (before != [] && after != [] && after[1..] == before && after[0].manifest.previous == Some(before[0].id))
  }

  lemma CommitStep(g: Universe, s: System, action: Action, root: Root)
    requires Good(s, root) && Possible(g, s, action) && !action.Load?
    ensures var after := Next(s, action); Succeeds(after.head, s.head) && Authentic(after.head, root)
    ensures var after := Next(s, action); after.loaded == s.loaded
    ensures var after := Next(s, action);
      after.head != s.head ==>
        && action.who in s.loaded && s.loaded[action.who] == s.head && Computed(g, s.head, action)
        && after.head != [] && after.head[0].manifest.refs == RefsAfter(action.op, s.head[0])
  {
    hide Authentic, Apply, Computed, Extends, RefsAfter;
    if action.who in s.loaded {
      var view := s.loaded[action.who];
      AuthenticIsNotEmpty(view, root);
      if Apply(action.op, view).Ok? && view[0].id == s.head[0].id {
        SameHeadSameChain(view, s.head, root);
        ComputedOperation(g, view, action);
        AppendsOne(action.op, view);
        OperationExtends(action.op, view, root);
      }
    }
  }

  lemma AuthenticIsNotEmpty(chain: seq<Entry>, root: Root)
    requires Authentic(chain, root)
    ensures chain != []
  {
  }

  lemma ComputedOperation(g: Universe, view: seq<Entry>, action: Action)
    requires view != [] && Computed(g, view, action) && !action.Load?
    ensures !action.op.Recover?
    ensures action.op.PublishRefs? ==> FreshPack(view, action.op.pack)
  {
  }

  /** Every step of every machine keeps the system good and the history one line. */
  lemma StepKeepsGood(g: Universe, s: System, action: Action, root: Root)
    requires Good(s, root) && Possible(g, s, action)
    ensures Good(Next(s, action), root)
    ensures Succeeds(Next(s, action).head, s.head)
  {
    hide Authentic, Apply, Computed, Extends, Commit, Possible;
    if action.Load? {
      ExtendsReflexive(s.head);
    } else {
      CommitStep(g, s, action, root);
      AuthenticIsNotEmpty(s.head, root);
      var after := Next(s, action);
      SucceedsExtends(after.head, s.head);
      forall who | who in s.loaded
        ensures Extends(after.head, s.loaded[who])
      {
        ExtendsTransitive(after.head, s.head, s.loaded[who]);
      }
    }
  }

  lemma SucceedsExtends(after: seq<Entry>, before: seq<Entry>)
    requires Succeeds(after, before)
    ensures Extends(after, before)
  {
  }

  // ---------------------------------------------------------------------------
  // Whole runs

  /** No accepted publication is lost: whatever the interleaving of loads and
      commits, every later head chain contains every earlier one, and each new
      HEAD names the HEAD it replaced as its parent. */
  lemma {:induction false} NoLostUpdate(g: Universe, states: seq<System>, actions: seq<Action>, root: Root)
    requires IsRun(g, states, actions) && Good(states[0], root)
    ensures forall i :: 0 <= i < |states| ==> Good(states[i], root)
    ensures forall i :: 0 <= i < |actions| ==> Succeeds(states[i + 1].head, states[i].head)
    ensures forall i, j :: 0 <= i <= j < |states| ==> Extends(states[j].head, states[i].head)
  {
    hide Good, Possible, Next, Extends, Succeeds;
    if actions == [] {
      ExtendsReflexive(states[0].head);
    } else {
      var last := |actions| - 1;
      ShorterRun(g, states, actions);
      NoLostUpdate(g, states[..last + 1], actions[..last], root);
      assert states[..last + 1][last] == states[last];
      assert StepOf(g, states[last], actions[last], states[last + 1]);
      StepKeepsGood(g, states[last], actions[last], root);
      SucceedsExtends(states[last + 1].head, states[last].head);
      forall i | 0 <= i <= last + 1
        ensures Extends(states[last + 1].head, states[i].head)
      {
        if i == last + 1 {
          ExtendsReflexive(states[i].head);
        } else {
          assert states[..last + 1][i] == states[i];
          ExtendsTransitive(states[last + 1].head, states[last].head, states[i].head);
        }
      }
      PrefixHeads(states, last);
    }
  }

  lemma ShorterRun(g: Universe, states: seq<System>, actions: seq<Action>)
    requires IsRun(g, states, actions) && actions != []
    ensures IsRun(g, states[..|actions|], actions[..|actions| - 1])
  {
    hide StepOf;
    var shorter, fewer := states[..|actions|], actions[..|actions| - 1];
    forall i | 0 <= i < |fewer|
      ensures StepOf(g, shorter[i], fewer[i], shorter[i + 1])
    {
      assert StepOf(g, states[i], actions[i], states[i + 1]);
    }
  }

  lemma PrefixHeads(states: seq<System>, last: nat)
    requires last < |states|
    ensures forall i :: 0 <= i <= last ==> states[..last + 1][i] == states[i]
  {
  }

  /** An accepted request of this push forces or deletes the name. */
  ghost predicate Forces(s: System, action: Action, name: RefName) {
    && action.PushCommit? && action.who in s.loaded && s.loaded[action.who] != []
    && P.Overridden(action.local, s.loaded[action.who][0].manifest.refs, action.pushes, name)
  }

  /** The tip of a branch at the head, if the branch exists. */
  function Tip(s: System, name: RefName): Option<Oid> {
    if s.head == [] then None else P.Lookup(s.head[0].manifest.refs, name)
  }

  ghost predicate Forward(g: Universe, from: Option<Oid>, to: Option<Oid>) {
    from.Some? ==> to.Some? && (to == from || Reaches(g, to.value, from.value))
  }

  lemma StepMovesForward(g: Universe, s: System, action: Action, root: Root, name: RefName)
    requires Good(s, root) && Possible(g, s, action)
    requires RefKindOf(name) == Ok(Branch) && !Forces(s, action, name)
    ensures Forward(g, Tip(s, name), Tip(Next(s, action), name))
  {
    hide Authentic, Extends, Commit, Reaches, P.NewValue, P.Overridden;
    if !action.Load? && Next(s, action).head != s.head {
      CommitStep(g, s, action, root);
      AuthenticIsNotEmpty(s.head, root);
      var refs := s.head[0].manifest.refs;
      if action.PushCommit? && name in refs {
        P.BranchMovesForward(action.local, refs, action.pushes, action.op.refs, name);
      }
    } else if !action.Load? {
      CommitStep(g, s, action, root);
    }
  }

  /** Unless some accepted push asks for force or deletion, a branch tip moves
      only to its own descendants over any run of any number of machines. */
  lemma {:induction false} BranchesMoveForward(
    g: Universe, states: seq<System>, actions: seq<Action>, root: Root, name: RefName, i: nat, j: nat)
    requires IsRun(g, states, actions) && Good(states[0], root)
    requires i <= j < |states|
    requires RefKindOf(name) == Ok(Branch)
    requires forall k :: i <= k < j ==> !Forces(states[k], actions[k], name)
    ensures Forward(g, Tip(states[i], name), Tip(states[j], name))
    decreases j
  {
    hide Good, Next, Forces, Tip, Reaches, StepOf;
    if i < j {
      BranchesMoveForward(g, states, actions, root, name, i, j - 1);
      NoLostUpdate(g, states, actions, root);
      assert StepOf(g, states[j - 1], actions[j - 1], states[j - 1 + 1]);
      StepIsPossible(g, states[j - 1], actions[j - 1], states[j]);
      StepMovesForward(g, states[j - 1], actions[j - 1], root, name);
      ForwardTransitive(g, Tip(states[i], name), Tip(states[j - 1], name), Tip(states[j], name));
    }
  }

  lemma StepIsPossible(g: Universe, before: System, action: Action, after: System)
    requires StepOf(g, before, action, after)
    ensures before.head != [] && Possible(g, before, action) && after == Next(before, action)
  {
  }

  lemma ForwardTransitive(g: Universe, a: Option<Oid>, b: Option<Oid>, c: Option<Oid>)
    requires Forward(g, a, b) && Forward(g, b, c)
    ensures Forward(g, a, c)
  {
    hide Reaches;
    if a.Some? && b != a && c != b {
      ReachesTransitive(g, c.value, b.value, a.value);
    }
  }

  // ---------------------------------------------------------------------------
  // The same operations under one machine's floor

  /** A push or membership change on a pinned view, and a recovery on a
      descendant of the floor, are the publications that floor safety covers. */
  lemma OperationsArePermitted(m: Machine, view: seq<Entry>, op: Operation, root: Root)
    requires Authentic(view, root) && Apply(op, view).Ok?
    requires op.PublishRefs? ==> FreshPack(view, op.pack)
    requires if op.Recover? then m.floor.Some? && op.back < |view| && ThroughFloor(view[op.back..], m.floor.value)
             else ValidatePinnedHead(view, m.floor).Ok?
    ensures
      var next := Apply(op, view).value;
      next != [] && Permitted(m, if op.Recover? then RecoverOn(next[1..], next[0]) else PublishOn(next[1..], next[0]), root)
  {
    hide Authentic, ValidatePinnedHead, ThroughFloor, Publish, AddDevice, RevokeDevice;
    OperationExtends(op, view, root);
    var next := Apply(op, view).value;
    assert [next[0]] + next[1..] == next;
    if op.Recover? {
      AuthenticSuffix(view, root, op.back);
      assert next[1..] == view[op.back..];
    } else {
      assert next[1..] == view;
    }
  }
}
