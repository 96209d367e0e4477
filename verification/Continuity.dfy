/** The machine's continuity floor (src/continuity.rs) and what it makes of a
    storage that may show anything at each read (`pinned_chain` and
    `validate_pinned_head` of src/repository.rs). */
module Continuity {
  import opened Prelude
  import opened Policy
  import opened Manifests
  import opened Chain
  import opened Authenticity
  import opened Authorization

  datatype Floor = Floor(root: Root, headId: Id, generation: u64, policyGeneration: u64)

  /** `ContinuityFloor::at` */
  function FloorAt(e: Entry): Floor {
    Floor(e.manifest.root, e.id, e.manifest.generation, e.manifest.policyGeneration)
  }

  // ---------------------------------------------------------------------------
  // Advancing

  datatype Advanced = Kept | Moved | Refused

  /** What `FloorGuard::advance` does with a stored floor. */
  function Advance(previous: Option<Floor>, next: Floor): Advanced {
    if previous.None? then Moved
    else if previous.value.root != next.root then Refused
    else if previous.value.generation > next.generation then Kept
    else if previous.value.generation == next.generation && previous.value.headId != next.headId then Refused
    else if next.policyGeneration < previous.value.policyGeneration then Refused
    else if previous.value == next then Kept
    else Moved
  }

  /** Exclusive hold on one root's floor file. */
  class FloorGuard {
    var stored: Option<Floor>

    constructor (initial: Option<Floor>)
      ensures stored == initial
    {
      stored := initial;
    }

    /** Moves the floor to `next` unless it stands at a later generation. The
        floor never falls, and a refusal leaves it in place. */
    method AdvanceTo(next: Floor) returns (r: Result<()>)
      modifies this
      ensures r.Err? <==> Advance(old(stored), next).Refused?
      ensures stored == if Advance(old(stored), next).Moved? then Some(next) else old(stored)
      ensures old(stored).Some? ==>
        && stored.Some?
        && stored.value.root == old(stored).value.root
        && stored.value.generation >= old(stored).value.generation
        && stored.value.policyGeneration >= old(stored).value.policyGeneration
        && (stored.value.generation == old(stored).value.generation ==> stored.value.headId == old(stored).value.headId)
    {
      if stored.Some? {
        var previous := stored.value;
        if previous.root != next.root {
          return Err({Rejected});
        }
        if previous.generation > next.generation {
          return Ok(());
        }
        if previous.generation == next.generation && previous.headId != next.headId {
          return Err({Rejected});
        }
        if next.policyGeneration < previous.policyGeneration {
          return Err({Rejected});
        }
        if previous == next {
          return Ok(());
        }
      }
      stored := Some(next);
      return Ok(());
    }
  }

  // ---------------------------------------------------------------------------
  // Pinning

  function FindGeneration(chain: seq<Entry>, generation: u64): (r: Option<Entry>)
    ensures r.Some? ==> r.value in chain && r.value.manifest.generation == generation
    ensures r.None? ==> forall e <- chain :: e.manifest.generation != generation
  {
    if chain == [] then None
    else if chain[0].manifest.generation == generation then Some(chain[0])
    else FindGeneration(chain[1..], generation)
  }

  function ValidatePinnedHead(chain: seq<Entry>, floor: Option<Floor>): Result<()> {
    var _ :- Need(chain != []);
    if floor.None? then Ok(())
    else
      var head := chain[0].manifest;
      var _ :- Need(floor.value.root == head.root);
      var _ :- Need(head.policyGeneration >= floor.value.policyGeneration);
      var _ :- Need(head.generation >= floor.value.generation);
      var pinned := FindGeneration(chain, floor.value.generation);
      var _ :- Need(pinned.Some?);
      Need(pinned.value.id == floor.value.headId)
  }

  /** `pinned_chain`: a view that fails the floor is refreshed once. `refreshed`
      is what the refresh yields: an error, no change, or a new chain. */
  function PinnedChain(
    floor: Option<Floor>, view: Result<seq<Entry>>, refreshed: Result<Option<Result<seq<Entry>>>>)
    : (r: Result<seq<Entry>>)
    ensures r.Ok? ==> r.value != [] && ValidatePinnedHead(r.value, floor).Ok?
  {
    var chain :- view;
    var first := ValidatePinnedHead(chain, floor);
    if first.Ok? then Ok(chain)
    else
      var again :- refreshed;
      if again.None? then Err(first.causes)
      else
        var newer :- again.value;
        var _ :- ValidatePinnedHead(newer, floor);
        Ok(newer)
  }

  /** The floor a machine holds after accepting a chain. */
  ghost predicate Pins(floor: Option<Floor>, chain: seq<Entry>) {
    chain != [] && floor == Some(FloorAt(chain[0]))
  }

  /** Against a floor taken from an accepted chain, the pin check passes an
      accepted chain if and only if that chain passes through the older one. */
  lemma PinnedIffExtends(chain: seq<Entry>, pinned: seq<Entry>, root: Root)
    requires Authentic(chain, root) && Authentic(pinned, root)
    ensures ValidatePinnedHead(chain, Some(FloorAt(pinned[0]))).Ok? <==> Extends(chain, pinned)
  {
    hide Authentic, FindGeneration;
    ChainShape(chain, root);
    ChainShape(pinned, root);
    var g := pinned[0].manifest.generation;
    if g < |chain| {
      var k := |chain| - 1 - g;
      FindsGeneration(chain, k, root);
      if chain[k].id == pinned[0].id {
        SameIdSameHistory(chain, pinned, root, k, 0);
        assert pinned[0..] == pinned;
        GenerationsGrow(chain, root, 0, k);
        PoliciesValid(chain, root);
        assert chain[k..][0] == chain[k];
      }
      if Extends(chain, pinned) {
        assert chain[k..][0] == chain[k] == pinned[0];
        GenerationsGrow(chain, root, 0, k);
        PoliciesValid(chain, root);
      }
    }
  }

  lemma FindsGeneration(chain: seq<Entry>, k: nat, root: Root)
    requires Authentic(chain, root) && k < |chain|
    ensures FindGeneration(chain, chain[k].manifest.generation) == Some(chain[k])
  {
    hide Authentic, FindGeneration;
    ChainShape(chain, root);
    var found := FindGeneration(chain, chain[k].manifest.generation);
    assert chain[k] in chain;
    var j :| 0 <= j < |chain| && chain[j] == found.value;
    assert j == k;
  }

  /** Under one guard, whatever passed the pin check, or extends it by one, can
      always be recorded: none of the refusals in `advance` can fire, and the
      floor ends at the new head. */
  lemma AdvanceNeverRefused(pinned: seq<Entry>, next: seq<Entry>, root: Root)
    requires Authentic(pinned, root) && Authentic(next, root)
    requires Extends(next, pinned)
    ensures !Advance(Some(FloorAt(pinned[0])), FloorAt(next[0])).Refused?
    ensures
      var outcome := Advance(Some(FloorAt(pinned[0])), FloorAt(next[0]));
      FloorAt(next[0]) == if outcome.Moved? then FloorAt(next[0]) else FloorAt(pinned[0])
  {
    hide Authentic;
    ChainShape(pinned, root);
    ChainShape(next, root);
    var k := |next| - |pinned|;
    assert next[k..][0] == next[k] == pinned[0];
    GenerationsGrow(next, root, 0, k);
    PoliciesValid(next, root);
  }

  // ---------------------------------------------------------------------------
  // Runs of one machine

  /** One operation under the floor lock. Storage chooses the chain it shows. */
  datatype Step =
    /** `pinned_head`, `observe_manifest`, `import_packs`, `verify_ciphertext`
        and a push that publishes nothing: accept what storage shows. */
    | Accept(shown: seq<Entry>)
    /** A push or a membership change: publish on what storage shows. */
    | PublishOn(shown: seq<Entry>, entry: Entry)
    /** `recover`: publish on an authenticated descendant of the floor. */
    | RecoverOn(base: seq<Entry>, entry: Entry)
    /** `initialize`: publish a genesis head where this machine pins nothing. */
    | Begin(entry: Entry)

  /** The floor, and every chain this machine accepted or published so far. */
  datatype Machine = Machine(floor: Option<Floor>, history: seq<seq<Entry>>)

  function Outcome(step: Step): seq<Entry> {
    match step
    case Accept(shown) => shown
    case PublishOn(shown, entry) => [entry] + shown
    case RecoverOn(base, entry) => [entry] + base
    case Begin(entry) => [entry]
  }

  /** The base of a recovery contains the pinned manifest at its generation. */
  predicate ThroughFloor(base: seq<Entry>, floor: Floor) {
    exists e <- base :: e.id == floor.headId && e.manifest.generation == floor.generation
  }

  /** What the code checks before it completes the step. */
  ghost predicate Permitted(m: Machine, step: Step, root: Root) {
    && Authentic(Outcome(step), root)
    && match step
       case Accept(shown) => ValidatePinnedHead(shown, m.floor).Ok?
       case PublishOn(shown, entry) => Authentic(shown, root) && ValidatePinnedHead(shown, m.floor).Ok?
       case RecoverOn(base, entry) => m.floor.Some? && Authentic(base, root) && ThroughFloor(base, m.floor.value)
       case Begin(entry) => m.floor.None?
  }

  function Take(m: Machine, step: Step): Machine
    requires Outcome(step) != []
  {
    var chain := Outcome(step);
    var next := FloorAt(chain[0]);
    Machine(if Advance(m.floor, next).Moved? then Some(next) else m.floor, m.history + [chain])
  }

  ghost predicate Consistent(m: Machine, root: Root) {
    && (m.history == [] ==> m.floor.None?)
    && (m.history != [] ==> Pins(m.floor, m.history[|m.history| - 1]))
    && (forall i :: 0 <= i < |m.history| ==> Authentic(m.history[i], root))
    && (forall i, j :: 0 <= i <= j < |m.history| ==> Extends(m.history[j], m.history[i]))
  }

  lemma ThroughFloorExtends(base: seq<Entry>, pinned: seq<Entry>, root: Root)
    requires Authentic(base, root) && Authentic(pinned, root)
    requires ThroughFloor(base, FloorAt(pinned[0]))
    ensures Extends(base, pinned)
  {
    hide Authentic;
    ChainShape(base, root);
    ChainShape(pinned, root);
    var e :| e in base && e.id == pinned[0].id;
    var k :| 0 <= k < |base| && base[k] == e;
    SameIdSameHistory(base, pinned, root, k, 0);
    assert pinned[0..] == pinned;
  }

  lemma StepExtends(m: Machine, step: Step, root: Root)
    requires Consistent(m, root) && Permitted(m, step, root)
    requires m.history != []
    ensures Extends(Outcome(step), m.history[|m.history| - 1])
  {
    hide Authentic, ValidatePinnedHead, ThroughFloor, Extends;
    var pinned := m.history[|m.history| - 1];
    match step
    case Accept(shown) => PinnedIffExtends(shown, pinned, root);
    case PublishOn(shown, entry) =>
      PinnedIffExtends(shown, pinned, root);
      PushExtends(shown, entry, pinned);
    case RecoverOn(base, entry) =>
      ThroughFloorExtends(base, pinned, root);
      PushExtends(base, entry, pinned);
  }

  lemma PushExtends(chain: seq<Entry>, entry: Entry, older: seq<Entry>)
    requires Extends(chain, older)
    ensures Extends([entry] + chain, older)
  {
    ExtendsTransitive([entry] + chain, chain, older);
  }

  lemma ExtendsTransitive(a: seq<Entry>, b: seq<Entry>, c: seq<Entry>)
    requires Extends(a, b) && Extends(b, c)
    ensures Extends(a, c)
  {
    assert b[|b| - |c|..] == a[|a| - |b|..][|b| - |c|..] == a[|a| - |c|..];
  }

  lemma StepKeepsConsistent(m: Machine, step: Step, root: Root)
    requires Consistent(m, root) && Permitted(m, step, root)
    ensures Consistent(Take(m, step), root)
    ensures !Advance(m.floor, FloorAt(Outcome(step)[0])).Refused?
  {
    hide Authentic, ValidatePinnedHead, ThroughFloor, Extends, Permitted;
    var chain := Outcome(step);
    PermittedOutcome(m, step, root);
    ExtendsReflexive(chain);
    if m.history != [] {
      var pinned := m.history[|m.history| - 1];
      StepExtends(m, step, root);
      AdvanceNeverRefused(pinned, chain, root);
      forall i | 0 <= i < |m.history|
        ensures Extends(chain, m.history[i])
      {
        ExtendsTransitive(chain, pinned, m.history[i]);
      }
    }
    HistoryGrows(m.history, chain);
  }

  lemma PermittedOutcome(m: Machine, step: Step, root: Root)
    requires Permitted(m, step, root)
    ensures Authentic(Outcome(step), root)
    ensures m.floor.None? ==> Advance(m.floor, FloorAt(Outcome(step)[0])).Moved?
  {
    hide Authentic, ValidatePinnedHead, ThroughFloor;
  }

  lemma ExtendsReflexive(chain: seq<Entry>)
    ensures Extends(chain, chain)
  {
  }

  lemma HistoryGrows(history: seq<seq<Entry>>, chain: seq<Entry>)
    requires forall i, j :: 0 <= i <= j < |history| ==> Extends(history[j], history[i])
    requires forall i :: 0 <= i < |history| ==> Extends(chain, history[i])
    requires Extends(chain, chain)
    ensures forall i, j :: 0 <= i <= j < |history| + 1 ==> Extends((history + [chain])[j], (history + [chain])[i])
  {
    hide Extends;
  }

  ghost predicate PermittedRun(m: Machine, steps: seq<Step>, root: Root)
    decreases |steps|
  {
    steps != [] ==> Permitted(m, steps[0], root) && Outcome(steps[0]) != [] && PermittedRun(Take(m, steps[0]), steps[1..], root)
  }

  ghost function RunSteps(m: Machine, steps: seq<Step>, root: Root): Machine
    requires PermittedRun(m, steps, root)
    decreases |steps|
  {
    if steps == [] then m else RunSteps(Take(m, steps[0]), steps[1..], root)
  }

  lemma {:induction false} RunKeepsConsistent(m: Machine, steps: seq<Step>, root: Root)
    requires Consistent(m, root) && PermittedRun(m, steps, root)
    ensures Consistent(RunSteps(m, steps, root), root)
    ensures m.history <= RunSteps(m, steps, root).history
    decreases |steps|
  {
    hide Consistent, Permitted;
    if steps != [] {
      StepKeepsConsistent(m, steps[0], root);
      RunKeepsConsistent(Take(m, steps[0]), steps[1..], root);
    }
  }

  /** `newer` passes through the head of `older`, and neither the generation nor
      the policy generation falls. */
  predicate Follows(newer: seq<Entry>, older: seq<Entry>) {
    && Extends(newer, older)
    && newer != [] && older != []
    && older[0].manifest.generation <= newer[0].manifest.generation
    && older[0].manifest.policyGeneration <= newer[0].manifest.policyGeneration
  }

  /** Floor safety: whatever storage shows to one machine over a whole run, all
      chains it accepts or publishes lie on one chain, each passing through
      every earlier one, and the floor ends at the newest. */
  lemma FloorSafety(steps: seq<Step>, root: Root, i: nat, j: nat)
    requires PermittedRun(Machine(None, []), steps, root)
    requires i <= j < |RunSteps(Machine(None, []), steps, root).history|
    ensures
      var m := RunSteps(Machine(None, []), steps, root);
      && Follows(m.history[j], m.history[i])
      && Pins(m.floor, m.history[|m.history| - 1])
  {
    hide Authentic, PermittedRun, RunSteps;
    RunKeepsConsistent(Machine(None, []), steps, root);
    var m := RunSteps(Machine(None, []), steps, root);
    var newer, older := m.history[j], m.history[i];
    var k := |newer| - |older|;
    assert newer[k..][0] == newer[k] == older[0];
    ChainShape(newer, root);
    ChainShape(older, root);
    GenerationsGrow(newer, root, 0, k);
    PoliciesValid(newer, root);
    PoliciesValid(older, root);
  }

  /** A head that forks from, or falls behind, anything seen before is refused
      by every later operation, whoever signed it. */
  lemma RollbackIsRefused(steps: seq<Step>, root: Root, shown: seq<Entry>, i: nat)
    requires PermittedRun(Machine(None, []), steps, root)
    requires i < |RunSteps(Machine(None, []), steps, root).history|
    requires Authentic(shown, root)
    requires !Extends(shown, RunSteps(Machine(None, []), steps, root).history[i])
    ensures ValidatePinnedHead(shown, RunSteps(Machine(None, []), steps, root).floor).Err?
  {
    hide Authentic, PermittedRun, RunSteps, ValidatePinnedHead;
    RunKeepsConsistent(Machine(None, []), steps, root);
    var m := RunSteps(Machine(None, []), steps, root);
    var pinned := m.history[|m.history| - 1];
    PinnedIffExtends(shown, pinned, root);
    if Extends(shown, pinned) {
      ExtendsTransitive(shown, pinned, m.history[i]);
    }
  }

  // ---------------------------------------------------------------------------
  // The operation that only reads

  /** `pinned_head`: accept what storage shows and advance. After the pin check
      under the same guard, the advance cannot fail. */
  method PinnedHead(
    guard: FloorGuard, view: Result<seq<Entry>>, refreshed: Result<Option<Result<seq<Entry>>>>,
    ghost pinned: seq<Entry>, ghost root: Root)
    returns (r: Result<Entry>)
    requires view.Ok? ==> Authentic(view.value, root)
    requires refreshed.Ok? && refreshed.value.Some? && refreshed.value.value.Ok? ==>
      Authentic(refreshed.value.value.value, root)
    requires guard.stored.None? || (Authentic(pinned, root) && Pins(guard.stored, pinned))
    modifies guard
    ensures
      var chain := PinnedChain(old(guard.stored), view, refreshed);
      && (chain.Ok? ==> r == Ok(chain.value[0]) && guard.stored == Some(FloorAt(chain.value[0])))
      && (chain.Err? ==> r == Err(chain.causes) && guard.stored == old(guard.stored))
  {
    hide Authentic;
    var chain := PinnedChain(guard.stored, view, refreshed);
    if chain.Err? {
      return Err(chain.causes);
    }
    var current := chain.value[0];
    if guard.stored.Some? {
      PinnedIffExtends(chain.value, pinned, root);
      AdvanceNeverRefused(pinned, chain.value, root);
    }
    var advanced := guard.AdvanceTo(FloorAt(current));
    if advanced.Err? {
      assert false;
    }
    return Ok(current);
  }
}
