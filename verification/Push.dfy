/** One push batch: `push` and `preflight_ref_change` of src/repository.rs. */
module Push {
  import opened Prelude
  import opened Manifests
  import opened GitGraph

  const MAIN: RefName := "refs/heads/main"

  datatype RefChange = Update(source: string, force: bool) | Delete
  datatype RefPush = RefPush(destination: RefName, change: RefChange)
  datatype PushMode = Publish | DryRun
  datatype RefOutcome = Accepted | Rejection(causes: set<Cause>)

  /** What the local repository answers while the batch is checked. */
  datatype Local = Local(
    validName: RefName -> bool,
    resolve: string -> Result<Oid>,
    commitTarget: Oid -> bool,
    present: Oid -> bool,
    isAncestor: (Oid, Oid) -> Result<bool>)

  /** `preflight_ref_change`: the object the destination will point at, or
      `None` for a deletion. */
  function Preflight(local: Local, parentRefs: Refs, push: RefPush): Result<Option<Oid>> {
    var kind :- RefKindOf(push.destination);
    var _ :- Need(local.validName(push.destination));
    var before := if push.destination in parentRefs then Some(parentRefs[push.destination]) else None;
    match push.change
    case Delete =>
      var _ :- Need(before.Some?);
      var _ :- Need(push.destination != MAIN);
      Ok(None)
    case Update(source, force) =>
      var next :- local.resolve(source);
      if before == Some(next) then Ok(Some(next))
      else
        var _ :- Need(kind == Branch ==> local.commitTarget(next));
        var _ :- Need(kind == TagRef && before.Some? ==> force);
        if kind == Branch && before.Some? then
          var _ :- Need(local.present(before.value));
          if force then Ok(Some(next))
          else
            var forward :- local.isAncestor(before.value, next);
            var _ :- Need(forward);
            Ok(Some(next))
        else Ok(Some(next))
  }

  // ---------------------------------------------------------------------------
  // Specification of the batch

  predicate Repeats(pushes: seq<RefPush>, i: nat)
    requires i < |pushes|
  {
    exists j :: 0 <= j < i && pushes[j].destination == pushes[i].destination
  }

  /** The i-th request passes: it is the first for its destination and its
      preflight against the parent's refs succeeds. */
  predicate Passes(local: Local, parentRefs: Refs, pushes: seq<RefPush>, i: nat)
    requires i < |pushes|
  {
    !Repeats(pushes, i) && Preflight(local, parentRefs, pushes[i]).Ok?
  }

  predicate Changed(local: Local, parentRefs: Refs, pushes: seq<RefPush>, name: RefName) {
    exists i :: 0 <= i < |pushes| && pushes[i].destination == name && Passes(local, parentRefs, pushes, i)
  }

  /** What one name points at after the batch, whatever the order of the rest. */
  ghost function NewValue(local: Local, parentRefs: Refs, pushes: seq<RefPush>, name: RefName): Option<Oid> {
    if Changed(local, parentRefs, pushes, name) then
      var i :| 0 <= i < |pushes| && pushes[i].destination == name && Passes(local, parentRefs, pushes, i);
      Preflight(local, parentRefs, pushes[i]).value
    else if name in parentRefs then Some(parentRefs[name])
    else None
  }

  function Lookup(refs: Refs, name: RefName): Option<Oid> {
    if name in refs then Some(refs[name]) else None
  }

  /** The successor's refs are the parent's with exactly the accepted changes. */
  ghost predicate Applied(local: Local, parentRefs: Refs, pushes: seq<RefPush>, nextRefs: Refs) {
    forall name :: Lookup(nextRefs, name) == NewValue(local, parentRefs, pushes, name)
  }

  datatype Batch = Batch(outcomes: seq<RefOutcome>, nextRefs: Refs, packRefs: Refs)

  /** The loop of `push`. */
  method CheckBatch(local: Local, parentRefs: Refs, pushes: seq<RefPush>) returns (batch: Batch)
    ensures |batch.outcomes| == |pushes|
    ensures forall i :: 0 <= i < |pushes| ==> (batch.outcomes[i].Accepted? <==> Passes(local, parentRefs, pushes, i))
    ensures Applied(local, parentRefs, pushes, batch.nextRefs)
    ensures forall name :: name in batch.packRefs <==>
      name in batch.nextRefs && Lookup(parentRefs, name) != Some(batch.nextRefs[name])
    ensures forall name <- batch.packRefs :: batch.nextRefs[name] == batch.packRefs[name]
  {
    hide Preflight, NewValue;
    var destinations: set<RefName> := {};
    var nextRefs := parentRefs;
    var packRefs: Refs := map[];
    var outcomes: seq<RefOutcome> := [];
    NothingApplied(local, parentRefs);
    for i := 0 to |pushes|
      invariant |outcomes| == i
      invariant destinations == set k | 0 <= k < i :: pushes[k].destination
      invariant forall k :: 0 <= k < i ==> (outcomes[k].Accepted? <==> Passes(local, parentRefs, pushes, k))
      invariant Applied(local, parentRefs, pushes[..i], nextRefs)
      invariant forall name :: name in packRefs <==>
        name in nextRefs && Lookup(parentRefs, name) != Some(nextRefs[name])
      invariant forall name <- packRefs :: nextRefs[name] == packRefs[name]
    {
      var push := pushes[i];
      var preflight := if push.destination in destinations then Err({Rejected}) else Preflight(local, parentRefs, push);
      assert push.destination in destinations <==> Repeats(pushes, i);
      BatchStep(local, parentRefs, pushes, i, nextRefs);
      if preflight.Err? {
        outcomes := outcomes + [Rejection(preflight.causes)];
      } else if preflight.value.Some? {
        var next := preflight.value.value;
        if Lookup(parentRefs, push.destination) != Some(next) {
          packRefs := packRefs[push.destination := next];
        }
        nextRefs := nextRefs[push.destination := next];
        outcomes := outcomes + [Accepted];
      } else {
        nextRefs := nextRefs - {push.destination};
        outcomes := outcomes + [Accepted];
      }
      destinations := destinations + {push.destination};
    }
    assert pushes[..|pushes|] == pushes;
    batch := Batch(outcomes, nextRefs, packRefs);
  }

  lemma NothingApplied(local: Local, parentRefs: Refs)
    ensures Applied(local, parentRefs, [], parentRefs)
  {
  }

  lemma PassesInPrefix(local: Local, parentRefs: Refs, pushes: seq<RefPush>, n: nat, i: nat)
    requires i < n <= |pushes|
    ensures Repeats(pushes[..n], i) <==> Repeats(pushes, i)
    ensures Passes(local, parentRefs, pushes[..n], i) <==> Passes(local, parentRefs, pushes, i)
  {
  }

  /** At most one request per destination passes. */
  lemma OnlyFirstPasses(local: Local, parentRefs: Refs, pushes: seq<RefPush>, i: nat, j: nat)
    requires i < |pushes| && j < |pushes|
    requires Passes(local, parentRefs, pushes, i) && Passes(local, parentRefs, pushes, j)
    requires pushes[i].destination == pushes[j].destination
    ensures i == j
  {
  }

  lemma ChangedByStep(local: Local, parentRefs: Refs, pushes: seq<RefPush>, i: nat, name: RefName)
    requires i < |pushes|
    ensures Changed(local, parentRefs, pushes[..i + 1], name) <==>
      || Changed(local, parentRefs, pushes[..i], name)
      || (name == pushes[i].destination && Passes(local, parentRefs, pushes, i))
  {
    hide Passes, Repeats;
    forall k | 0 <= k <= i
      ensures Passes(local, parentRefs, pushes[..i + 1], k) <==> Passes(local, parentRefs, pushes, k)
      ensures k < i ==> (Passes(local, parentRefs, pushes[..i], k) <==> Passes(local, parentRefs, pushes, k))
    {
      PassesInPrefix(local, parentRefs, pushes, i + 1, k);
      if k < i {
        PassesInPrefix(local, parentRefs, pushes, i, k);
      }
    }
  }

  lemma ValueOfPassing(local: Local, parentRefs: Refs, pushes: seq<RefPush>, i: nat)
    requires i < |pushes| && Passes(local, parentRefs, pushes, i)
    ensures NewValue(local, parentRefs, pushes, pushes[i].destination) == Preflight(local, parentRefs, pushes[i]).value
  {
    hide Preflight;
    forall j | 0 <= j < |pushes| && pushes[j].destination == pushes[i].destination && Passes(local, parentRefs, pushes, j)
      ensures j == i
    {
      OnlyFirstPasses(local, parentRefs, pushes, i, j);
    }
  }

  lemma ValueUnchangedByStep(local: Local, parentRefs: Refs, pushes: seq<RefPush>, i: nat, name: RefName)
    requires i < |pushes|
    requires name != pushes[i].destination || !Passes(local, parentRefs, pushes, i)
    ensures NewValue(local, parentRefs, pushes[..i + 1], name) == NewValue(local, parentRefs, pushes[..i], name)
  {
    hide Preflight, Passes;
    ChangedByStep(local, parentRefs, pushes, i, name);
    if Changed(local, parentRefs, pushes[..i], name) {
      var k :| 0 <= k < |pushes[..i]| && pushes[..i][k].destination == name && Passes(local, parentRefs, pushes[..i], k);
      PassesInPrefix(local, parentRefs, pushes, i, k);
      PassesInPrefix(local, parentRefs, pushes, i + 1, k);
      ValueOfPassing(local, parentRefs, pushes[..i], k);
      ValueOfPassing(local, parentRefs, pushes[..i + 1], k);
    }
  }

  lemma BatchStep(local: Local, parentRefs: Refs, pushes: seq<RefPush>, i: nat, refs: Refs)
    requires i < |pushes|
    requires Applied(local, parentRefs, pushes[..i], refs)
    ensures !Passes(local, parentRefs, pushes, i) ==> Applied(local, parentRefs, pushes[..i + 1], refs)
    ensures Passes(local, parentRefs, pushes, i) ==>
      var value := Preflight(local, parentRefs, pushes[i]).value;
      Applied(local, parentRefs, pushes[..i + 1],
              if value.Some? then refs[pushes[i].destination := value.value] else refs - {pushes[i].destination})
    ensures Passes(local, parentRefs, pushes, i) ==>
      Lookup(refs, pushes[i].destination) == Lookup(parentRefs, pushes[i].destination)
  {
    hide Preflight;
    forall name | name != pushes[i].destination || !Passes(local, parentRefs, pushes, i)
      ensures NewValue(local, parentRefs, pushes[..i + 1], name) == NewValue(local, parentRefs, pushes[..i], name)
    {
      ValueUnchangedByStep(local, parentRefs, pushes, i, name);
    }
    if Passes(local, parentRefs, pushes, i) {
      PassesInPrefix(local, parentRefs, pushes, i + 1, i);
      ValueOfPassing(local, parentRefs, pushes[..i + 1], i);
      assert pushes[..i + 1][i] == pushes[i];
      assert !Changed(local, parentRefs, pushes[..i], pushes[i].destination);
      var value := Preflight(local, parentRefs, pushes[i]).value;
      var after := if value.Some? then refs[pushes[i].destination := value.value] else refs - {pushes[i].destination};
      forall name
        ensures Lookup(after, name) == NewValue(local, parentRefs, pushes[..i + 1], name)
      {
        if name != pushes[i].destination {
          assert Lookup(after, name) == Lookup(refs, name);
        }
      }
    }
  }

  // ---------------------------------------------------------------------------
  // What every batch guarantees

  /** `push`, up to publication: nothing is published by a dry run or when the
      accepted changes leave the refs as they were. */
  method PushBatch(local: Local, parentRefs: Refs, pushes: seq<RefPush>, mode: PushMode)
    returns (batch: Batch, publish: bool)
    ensures |batch.outcomes| == |pushes|
    ensures forall i :: 0 <= i < |pushes| ==> (batch.outcomes[i].Accepted? <==> Passes(local, parentRefs, pushes, i))
    ensures Applied(local, parentRefs, pushes, batch.nextRefs)
    ensures publish <==> mode == Publish && batch.nextRefs != parentRefs
    ensures batch.packRefs == PackRefs(parentRefs, batch.nextRefs)
  {
    batch := CheckBatch(local, parentRefs, pushes);
    publish := !(mode == DryRun || batch.nextRefs == parentRefs);
  }

  /** The refs whose objects a new pack must carry. */
  function PackRefs(parentRefs: Refs, nextRefs: Refs): Refs {
    map name | name in nextRefs && Lookup(parentRefs, name) != Some(nextRefs[name]) :: nextRefs[name]
  }

  /** Every object the successor names was named by the parent or is packed. */
  lemma EveryTipCovered(parentRefs: Refs, nextRefs: Refs)
    ensures nextRefs.Values <= parentRefs.Values + PackRefs(parentRefs, nextRefs).Values
  {
    forall oid | oid in nextRefs.Values
      ensures oid in parentRefs.Values + PackRefs(parentRefs, nextRefs).Values
    {
      var name :| name in nextRefs && nextRefs[name] == oid;
      if Lookup(parentRefs, name) == Some(oid) {
        assert parentRefs[name] == oid;
      } else {
        assert PackRefs(parentRefs, nextRefs)[name] == oid;
      }
    }
  }

  /** The advertised default branch, once present, is never removed. */
  lemma MainIsNeverRemoved(local: Local, parentRefs: Refs, pushes: seq<RefPush>, nextRefs: Refs)
    requires Applied(local, parentRefs, pushes, nextRefs)
    requires MAIN in parentRefs
    ensures MAIN in nextRefs
  {
    assert Lookup(nextRefs, MAIN) == NewValue(local, parentRefs, pushes, MAIN);
  }

  /** Some accepted request asked for this name to be forced or deleted. */
  ghost predicate Overridden(local: Local, parentRefs: Refs, pushes: seq<RefPush>, name: RefName) {
    exists i :: 0 <= i < |pushes| && pushes[i].destination == name && Passes(local, parentRefs, pushes, i)
      && (pushes[i].change.Delete? || pushes[i].change.force)
  }

  /** A branch that is not forced or deleted stays, and moves only forward. */
  lemma BranchMovesForward(local: Local, parentRefs: Refs, pushes: seq<RefPush>, nextRefs: Refs, name: RefName)
    requires Applied(local, parentRefs, pushes, nextRefs)
    requires name in parentRefs && RefKindOf(name) == Ok(Branch)
    requires !Overridden(local, parentRefs, pushes, name)
    ensures name in nextRefs
    ensures nextRefs[name] == parentRefs[name] || local.isAncestor(parentRefs[name], nextRefs[name]) == Ok(true)
  {
    assert Lookup(nextRefs, name) == NewValue(local, parentRefs, pushes, name);
    if Changed(local, parentRefs, pushes, name) {
      var i :| 0 <= i < |pushes| && pushes[i].destination == name && Passes(local, parentRefs, pushes, i);
      ValueOfPassing(local, parentRefs, pushes, i);
    }
  }

  /** An existing tag changes only by force or deletion. */
  lemma TagStays(local: Local, parentRefs: Refs, pushes: seq<RefPush>, nextRefs: Refs, name: RefName)
    requires Applied(local, parentRefs, pushes, nextRefs)
    requires name in parentRefs && RefKindOf(name) == Ok(TagRef)
    requires !Overridden(local, parentRefs, pushes, name)
    ensures name in nextRefs && nextRefs[name] == parentRefs[name]
  {
    assert Lookup(nextRefs, name) == NewValue(local, parentRefs, pushes, name);
    if Changed(local, parentRefs, pushes, name) {
      var i :| 0 <= i < |pushes| && pushes[i].destination == name && Passes(local, parentRefs, pushes, i);
      ValueOfPassing(local, parentRefs, pushes, i);
    }
  }

  predicate DistinctDestinations(pushes: seq<RefPush>) {
    forall i, j :: 0 <= i < j < |pushes| ==> pushes[i].destination != pushes[j].destination
  }

  /** A batch without repeated destinations means the same in every order. */
  lemma OrderDoesNotMatter(local: Local, parentRefs: Refs, pushes: seq<RefPush>, shuffled: seq<RefPush>, nextRefs: Refs)
    requires DistinctDestinations(pushes) && DistinctDestinations(shuffled)
    requires forall push :: push in pushes <==> push in shuffled
    requires Applied(local, parentRefs, pushes, nextRefs)
    ensures Applied(local, parentRefs, shuffled, nextRefs)
  {
    hide Preflight;
    forall name
      ensures NewValue(local, parentRefs, shuffled, name) == NewValue(local, parentRefs, pushes, name)
    {
      SameValue(local, parentRefs, pushes, shuffled, name);
    }
  }

  lemma SameValue(local: Local, parentRefs: Refs, pushes: seq<RefPush>, shuffled: seq<RefPush>, name: RefName)
    requires DistinctDestinations(pushes) && DistinctDestinations(shuffled)
    requires forall push :: push in pushes <==> push in shuffled
    ensures NewValue(local, parentRefs, shuffled, name) == NewValue(local, parentRefs, pushes, name)
  {
    hide Preflight, NewValue;
    if Changed(local, parentRefs, pushes, name) {
      Shuffles(local, parentRefs, pushes, shuffled, name);
    } else if Changed(local, parentRefs, shuffled, name) {
      Shuffles(local, parentRefs, shuffled, pushes, name);
    } else {
      Untouched(local, parentRefs, pushes, name);
      Untouched(local, parentRefs, shuffled, name);
    }
  }

  lemma Untouched(local: Local, parentRefs: Refs, pushes: seq<RefPush>, name: RefName)
    requires !Changed(local, parentRefs, pushes, name)
    ensures NewValue(local, parentRefs, pushes, name) == Lookup(parentRefs, name)
  {
  }

  lemma Shuffles(local: Local, parentRefs: Refs, pushes: seq<RefPush>, shuffled: seq<RefPush>, name: RefName)
    requires DistinctDestinations(shuffled)
    requires forall push :: push in pushes <==> push in shuffled
    requires Changed(local, parentRefs, pushes, name)
    ensures Changed(local, parentRefs, shuffled, name)
    ensures NewValue(local, parentRefs, shuffled, name) == NewValue(local, parentRefs, pushes, name)
  {
    hide Preflight, NewValue;
    var i :| 0 <= i < |pushes| && pushes[i].destination == name && Passes(local, parentRefs, pushes, i);
    assert pushes[i] in shuffled;
    var k :| 0 <= k < |shuffled| && shuffled[k] == pushes[i];
    assert Passes(local, parentRefs, shuffled, k);
    ValueOfPassing(local, parentRefs, pushes, i);
    ValueOfPassing(local, parentRefs, shuffled, k);
  }
}
