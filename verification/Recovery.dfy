/** `recover` of src/repository.rs: classifying the storage head and choosing
    the base a recovery publishes on. */
module Recovery {
  import opened Prelude
  import opened Policy
  import opened Manifests
  import opened Chain
  import opened Authenticity
  import opened Continuity

  const MAX_RECOVERY_CANDIDATES: nat := 256

  datatype RecoveryClass = Valid | Invalid | Unverifiable | UnsupportedFormat | Unavailable | Discontinuous

  /** `classify_recovery_error`: by the types in the error, never its text. */
  function Classify(causes: set<Cause>): RecoveryClass {
    if Unsupported in causes then UnsupportedFormat
    else if NotActiveReader in causes then Unverifiable
    else if ForeignRepository in causes then Discontinuous
    else if ObjectUnavailable in causes || MissingStorageHead in causes || OtherIo in causes then Unavailable
    else if InvalidState in causes then Invalid
    else Unverifiable
  }

  // ---------------------------------------------------------------------------
  // A head is invalid only when its content is proven bad

  /** Storage itself never answers with a judgement about content: what it
      returns can be absent, unreadable or over budget. */
  ghost predicate StorageErrorsOnly(read: Reader) {
    forall id :: read(id).Err? ==> InvalidState !in read(id).causes
  }

  /** A check on content fails with a message or with the unsupported-format
      failure, never with anything that speaks about storage or this device. */
  predicate ContentFailure<T>(r: Result<T>) {
    r.Err? ==> r.causes == {Rejected} || r.causes == {Unsupported}
  }

  lemma OpeningFails(blob: Blob, key: Key)
    ensures ContentFailure(PeekHeader(blob)) && ContentFailure(OpenManifest(blob, key))
  {
    hide ValidPackDelta, ValidEnvelopeCount;
  }

  lemma LinkFails(key: Key, m: Manifest, header: Header)
    ensures ContentFailure(UnwrapPredecessorKey(key, m, header))
  {
  }

  lemma PolicyFails(m: Manifest, parent: Option<Entry>, root: Root)
    ensures ContentFailure(SelectPolicy(m, parent, root))
  {
    hide ValidBody, RecordKept, RevocationStamped, ValidActiveRoles, ValidPackDelta, FindAdmin;
  }

  lemma VerifyFails(u: Unverified, parent: Option<Entry>, root: Root)
    ensures ContentFailure(VerifyEntry(u, parent, root))
  {
    hide SelectPolicy, ValidLayout, ValidAudit, ValidEnvelopeCount, FindDevice;
    PolicyFails(u.unsealed.manifest, parent, root);
  }

  lemma {:induction false} ChainFails(us: seq<Unverified>, root: Root)
    ensures ContentFailure(VerifyChain(us, root))
  {
    hide VerifyEntry, ChainPackIds;
    if us != [] {
      ChainFails(us[1..], root);
      var older := VerifyChain(us[1..], root);
      if older.Ok? {
        VerifyFails(us[0], if older.value == [] then None else Some(older.value[0]), root);
      }
    }
  }

  /** The first object that the walk behind an opened manifest asks for and
      storage does not serve. */
  function FirstUnread(read: Reader, at: Unverified): Option<Id>
    requires at.unsealed.manifest.generation == 0 <==> at.unsealed.manifest.previous.None?
    decreases at.unsealed.manifest.generation
  {
    if at.unsealed.manifest.previous.None? then None
    else if read(at.unsealed.manifest.previous.value).Err? then at.unsealed.manifest.previous
    else
      var parent := OpenParent(read, at);
      if parent.Ok? then FirstUnread(read, parent.value) else None
  }

  /** The same for the whole chain of a head. */
  function FirstMissing(read: Reader, head: Id, key: KeyFile): Option<Id> {
    if read(head).Err? then Some(head)
    else
      var at := OpenHead(read, head, key);
      if at.Ok? then FirstUnread(read, at.value) else None
  }

  /** Content failures of the walk, once storage serves what it asks for. */
  lemma {:induction false} WalkFails(read: Reader, at: Unverified)
    requires at.unsealed.manifest.generation == 0 <==> at.unsealed.manifest.previous.None?
    ensures FirstUnread(read, at).None? && Walk(read, at).Err? ==>
      Walk(read, at).causes == {Rejected, InvalidState} || Walk(read, at).causes == {Unsupported}
    ensures FirstUnread(read, at).Some? ==>
      read(FirstUnread(read, at).value).Err? && Walk(read, at) == Err(read(FirstUnread(read, at).value).causes)
    decreases at.unsealed.manifest.generation
  {
    hide OpenManifest, UnwrapPredecessorKey, PeekHeader;
    if at.unsealed.manifest.previous.Some? && read(at.unsealed.manifest.previous.value).Ok? {
      var previousId := at.unsealed.manifest.previous.value;
      var blob := read(previousId).value;
      OpeningFails(blob, at.key);
      if ReadMaterial(read, previousId).Ok? {
        var link := UnwrapPredecessorKey(at.key, at.unsealed.manifest, PeekHeader(blob).value);
        LinkFails(at.key, at.unsealed.manifest, PeekHeader(blob).value);
        if link.Ok? {
          OpeningFails(blob, link.value);
        }
      }
      if OpenParent(read, at).Ok? {
        WalkFails(read, OpenParent(read, at).value);
      }
    }
  }

  /** An object missing anywhere on the path is what the whole opening reports,
      with the storage's own causes and nothing else. */
  lemma MissingObjectIsReported(read: Reader, head: Id, key: KeyFile)
    requires FirstMissing(read, head, key).Some?
    ensures read(FirstMissing(read, head, key).value).Err?
    ensures OpenChain(read, head, key) == Err(read(FirstMissing(read, head, key).value).causes)
  {
    hide OpenManifest, UnwrapGenerationKey, PeekHeader, Walk, VerifyChain;
    if read(head).Ok? {
      WalkFails(read, OpenHead(read, head, key).value);
    }
  }

  /** An unavailable object on the path, the head's or any ancestor's, makes the
      head unavailable, never invalid, so recovery is blocked. */
  lemma MissingObjectIsUnavailable(read: Reader, head: Id, key: KeyFile)
    requires FirstMissing(read, head, key).Some?
    requires read(FirstMissing(read, head, key).value).Err?
    requires
      var causes := read(FirstMissing(read, head, key).value).causes;
      ObjectUnavailable in causes && causes <= {ObjectUnavailable, OtherIo, InvalidData}
    ensures OpenChain(read, head, key).Err?
    ensures Classify(OpenChain(read, head, key).causes).Unavailable?
  {
    hide OpenChain, FirstMissing;
    MissingObjectIsReported(read, head, key);
  }

  /** This device holds no key for the head. */
  predicate CannotUnwrap(read: Reader, head: Id, key: KeyFile) {
    var blob := ReadMaterial(read, head);
    blob.Ok? && UnwrapGenerationKey(PeekHeader(blob.value).value, key).Err?
  }

  /** When storage serves every object the walk asks for and this device can
      unwrap the head, a chain is accepted, or uses an unsupported format, or is
      proven invalid: bad content never hides behind another class. */
  lemma BadContentIsInvalid(read: Reader, head: Id, key: KeyFile)
    requires FirstMissing(read, head, key).None?
    requires !CannotUnwrap(read, head, key)
    ensures OpenChain(read, head, key).Err? ==>
      Classify(OpenChain(read, head, key).causes) ==
        if Unsupported in OpenChain(read, head, key).causes then UnsupportedFormat else Invalid
  {
    hide OpenManifest, UnwrapGenerationKey, PeekHeader, Walk, VerifyChain;
    OpeningFails(read(head).value, Key(0));
    if ReadMaterial(read, head).Ok? {
      var blob := ReadMaterial(read, head).value;
      OpeningFails(blob, UnwrapGenerationKey(PeekHeader(blob).value, key).value);
      if OpenHead(read, head, key).Ok? {
        var at := OpenHead(read, head, key).value;
        WalkFails(read, at);
        if Walk(read, at).Ok? {
          ChainFails(Walk(read, at).value, key.root);
        }
      }
    }
  }

  /** The class that allows recovery, exactly: a failed opening is classified
      invalid if and only if storage served every object the walk asked for,
      this device could unwrap the head, and the format is supported. */
  lemma InvalidExactly(read: Reader, head: Id, key: KeyFile)
    requires StorageErrorsOnly(read)
    requires OpenChain(read, head, key).Err?
    ensures Classify(OpenChain(read, head, key).causes).Invalid? <==>
      && FirstMissing(read, head, key).None?
      && !CannotUnwrap(read, head, key)
      && Unsupported !in OpenChain(read, head, key).causes
  {
    hide OpenChain, FirstMissing, CannotUnwrap;
    if FirstMissing(read, head, key).Some? {
      MissingObjectIsReported(read, head, key);
    } else if CannotUnwrap(read, head, key) {
      UnopenableHeadIsNotInvalid(read, head, key);
    } else {
      BadContentIsInvalid(read, head, key);
    }
  }

  lemma UnwrapNeverProvesBad(header: Header, key: KeyFile)
    ensures UnwrapGenerationKey(header, key).Err? ==> InvalidState !in UnwrapGenerationKey(header, key).causes
  {
  }

  /** A head this device cannot open, that belongs to another repository or
      that uses an unknown format is never classified as invalid, so recovery
      never replaces what may be a valid revocation. */
  lemma UnopenableHeadIsNotInvalid(read: Reader, head: Id, key: KeyFile)
    requires CannotUnwrap(read, head, key)
    ensures OpenChain(read, head, key).Err?
    ensures !Classify(OpenChain(read, head, key).causes).Invalid?
  {
    UnwrapNeverProvesBad(PeekHeader(ReadMaterial(read, head).value).value, key);
  }

  // ---------------------------------------------------------------------------
  // Choosing the base

  /** What the observation of the head led to, and what history holds. */
  datatype Evidence = Evidence(
    floor: Option<Floor>,
    /** `chain_from` on the observed head. */
    current: Result<seq<Entry>>,
    /** Whether every pack of the observed chain is present. */
    packsPresent: bool,
    /** The carrier's past heads, newest first; `None` on directory storage. */
    history: Option<seq<Option<Id>>>,
    /** `chain_from` on the pinned floor and on each past head. */
    open: Id -> Result<seq<Entry>>,
    /** Whether the base's objects restore and its refs are connected. */
    restorable: seq<Entry> -> bool)

  datatype Options = Options(publish: bool, base: Option<Id>, discardNewer: bool, acceptStaleFloor: bool)

  datatype Report = Report(
    classification: RecoveryClass,
    offers: seq<seq<Entry>>,
    replays: set<Id>,
    conflict: bool,
    blocked: bool,
    publishOn: Option<seq<Entry>>)

  function ClassifyHead(ev: Evidence): RecoveryClass {
    match ev.current
    case Err(causes) => Classify(causes)
    case Ok(chain) =>
      if ev.floor.Some? && ValidatePinnedHead(chain, ev.floor).Err? then Discontinuous
      else if ev.packsPresent then Valid
      else Unavailable
  }

  /** Every chain `chain_from` hands back is authentic and headed by its ID. */
  ghost predicate Sound(ev: Evidence, root: Root) {
    && (ev.current.Ok? ==> Authentic(ev.current.value, root))
    && (forall id :: ev.open(id).Ok? ==> Authentic(ev.open(id).value, root) && ev.open(id).value[0].id == id)
  }

  predicate InChain(chain: seq<Entry>, id: Id) {
    exists e <- chain :: e.id == id
  }

  /** The first occurrence of each past head, in history order. */
  function UniqueHeads(history: seq<Option<Id>>): (r: seq<Id>)
    ensures forall id :: id in r <==> Some(id) in history
    ensures forall i, j :: 0 <= i < j < |r| ==> r[i] != r[j]
  {
    if history == [] then []
    else
      var last := |history| - 1;
      var before := UniqueHeads(history[..last]);
      assert history == history[..last] + [history[last]];
      if history[last].Some? && history[last].value !in before then before + [history[last].value] else before
  }

  /** What the scan of past heads ends with. */
  datatype Scan =
    | Exhausted
    | Stopped
    | Found(descendants: seq<seq<Entry>>, replays: set<Id>)

  /** One past head against the floor's chain. */
  function ScanOne(ev: Evidence, floor: Floor, floorChain: seq<Entry>, id: Id, found: Scan): Scan
    requires found.Found?
  {
    if id == floor.headId then found
    else if InChain(floorChain, id) then found.(replays := found.replays + {id})
    else
      match ev.open(id)
      case Err(causes) =>
        if BudgetExhausted in causes then Exhausted
        else if Classify(causes).Invalid? then found
        else Stopped
      case Ok(chain) =>
        if ThroughFloor(chain, floor) then found.(descendants := found.descendants + [chain]) else Stopped
  }

  /** What is known of the candidates collected so far. */
  ghost predicate GoodDescendants(descendants: seq<seq<Entry>>, floorChain: seq<Entry>, root: Root) {
    && (forall i :: 0 <= i < |descendants| ==>
          Authentic(descendants[i], root) && Extends(descendants[i], floorChain))
    && (forall i, j :: 0 <= i < j < |descendants| ==> descendants[i] != descendants[j])
  }

  /** Every head scanned so far is a replay, proven invalid, or collected. */
  ghost predicate Accounted(ev: Evidence, floorChain: seq<Entry>, heads: seq<Id>, descendants: seq<seq<Entry>>) {
    forall id <- heads :: ev.open(id).Ok? ==> InChain(floorChain, id) || ev.open(id).value in descendants
  }

  /** Every collected chain is what some scanned head opens to. */
  predicate CollectedFrom(ev: Evidence, floorChain: seq<Entry>, descendants: seq<seq<Entry>>, heads: seq<Id>) {
    forall i :: 0 <= i < |descendants| ==>
      && descendants[i] != [] && descendants[i][0].id in heads
      && ev.open(descendants[i][0].id) == Ok(descendants[i])
      && !InChain(floorChain, descendants[i][0].id)
  }

  /** The scan can tell what this past head is. */
  predicate Decided(ev: Evidence, floor: Floor, floorChain: seq<Entry>, id: Id) {
    || id == floor.headId
    || InChain(floorChain, id)
    || match ev.open(id)
       case Err(causes) => BudgetExhausted !in causes && Classify(causes).Invalid?
       case Ok(chain) => ThroughFloor(chain, floor)
  }

  method ScanHistory(ev: Evidence, floor: Floor, floorChain: seq<Entry>, heads: seq<Id>, ghost root: Root)
    returns (scan: Scan)
    requires Sound(ev, root)
    requires Authentic(floorChain, root) && floor.headId == floorChain[0].id
    requires floor.generation == floorChain[0].manifest.generation
    requires forall i, j :: 0 <= i < j < |heads| ==> heads[i] != heads[j]
    ensures scan.Found? ==>
      && GoodDescendants(scan.descendants, floorChain, root)
      && Accounted(ev, floorChain, heads, scan.descendants)
      && CollectedFrom(ev, floorChain, scan.descendants, heads)
    ensures scan.Found? <==> forall id <- heads :: Decided(ev, floor, floorChain, id)
  {
    hide Authentic, Classify, ThroughFloor, Extends;
    scan := Found([], {});
    for i := 0 to |heads|
      invariant scan.Found?
      invariant GoodDescendants(scan.descendants, floorChain, root)
      invariant Accounted(ev, floorChain, heads[..i], scan.descendants)
      invariant CollectedFrom(ev, floorChain, scan.descendants, heads[..i])
      invariant forall k :: 0 <= k < i ==> Decided(ev, floor, floorChain, heads[k])
    {
      var id := heads[i];
      assert heads[..i + 1] == heads[..i] + [id];
      var next := ScanOne(ev, floor, floorChain, id, scan);
      if !next.Found? {
        assert !Decided(ev, floor, floorChain, heads[i]) && heads[i] in heads;
        return next;
      }
      if next.descendants != scan.descendants {
        ghost var chain := ev.open(id).value;
        ThroughFloorReaches(chain, floor, floorChain, root);
        assert id !in heads[..i];
        assert next.descendants == scan.descendants + [chain];
      } else {
        assert floorChain[0] in floorChain;
      }
      scan := next;
    }
    assert heads[..|heads|] == heads;
  }

  lemma ThroughFloorReaches(chain: seq<Entry>, floor: Floor, floorChain: seq<Entry>, root: Root)
    requires Authentic(chain, root) && Authentic(floorChain, root)
    requires ThroughFloor(chain, floor) && floor.headId == floorChain[0].id
    ensures Extends(chain, floorChain)
  {
    hide Authentic;
    var e :| e in chain && e.id == floor.headId && e.manifest.generation == floor.generation;
    var k :| 0 <= k < |chain| && chain[k] == e;
    SameIdSameHistory(chain, floorChain, root, k, 0);
    assert floorChain[0..] == floorChain;
    ChainShape(chain, root);
    ChainShape(floorChain, root);
  }

  // ---------------------------------------------------------------------------
  // Forks

  predicate Comparable(a: seq<Entry>, b: seq<Entry>)
    requires a != [] && b != []
  {
    InChain(b, a[0].id) || InChain(a, b[0].id)
  }

  /** The pairwise scan for two descendants of which neither is an ancestor of
      the other. */
  method FindConflict(descendants: seq<seq<Entry>>) returns (conflict: bool)
    requires forall i :: 0 <= i < |descendants| ==> descendants[i] != []
    ensures conflict <==> exists i, j :: 0 <= i < j < |descendants| && !Comparable(descendants[i], descendants[j])
  {
    conflict := false;
    for i := 0 to |descendants|
      invariant conflict <==> exists k, l :: 0 <= k < i && k < l < |descendants| && !Comparable(descendants[k], descendants[l])
    {
      for j := i + 1 to |descendants|
        invariant conflict <==>
          || (exists k, l :: 0 <= k < i && k < l < |descendants| && !Comparable(descendants[k], descendants[l]))
          || (exists l :: i < l < j && !Comparable(descendants[i], descendants[l]))
      {
        if !Comparable(descendants[i], descendants[j]) {
          conflict := true;
        }
      }
    }
  }

  lemma ComparableExtends(a: seq<Entry>, b: seq<Entry>, root: Root)
    requires Authentic(a, root) && Authentic(b, root)
    ensures Comparable(a, b) <==> Extends(a, b) || Extends(b, a)
  {
    hide Authentic, InChain, Extends;
    InChainExtends(a, b, root);
    InChainExtends(b, a, root);
  }

  lemma InChainExtends(chain: seq<Entry>, older: seq<Entry>, root: Root)
    requires Authentic(chain, root) && Authentic(older, root)
    ensures InChain(chain, older[0].id) <==> Extends(chain, older)
  {
    hide Authentic;
    if InChain(chain, older[0].id) {
      var k :| 0 <= k < |chain| && chain[k].id == older[0].id;
      SameIdSameHistory(chain, older, root, k, 0);
      assert older[0..] == older;
    }
    if Extends(chain, older) {
      assert chain[|chain| - |older|..][0] == chain[|chain| - |older|] == older[0];
      assert older[0] in chain;
    }
  }

  // ---------------------------------------------------------------------------
  // Offers

  function InsertOffer(offer: seq<Entry>, sorted: seq<seq<Entry>>): (r: seq<seq<Entry>>)
    ensures multiset(r) == multiset(sorted) + multiset{offer}
  {
    if sorted == [] || |offer| <= |sorted[0]| then [offer] + sorted
    else
      assert sorted == [sorted[0]] + sorted[1..];
      [sorted[0]] + InsertOffer(offer, sorted[1..])
  }

  /** The offers by generation: an authentic chain has generation + 1 entries. */
  function SortOffers(offers: seq<seq<Entry>>): (r: seq<seq<Entry>>)
    ensures multiset(r) == multiset(offers)
  {
    if offers == [] then []
    else
      assert offers == [offers[0]] + offers[1..];
      InsertOffer(offers[0], SortOffers(offers[1..]))
  }

  predicate ByLength(offers: seq<seq<Entry>>) {
    forall i, j :: 0 <= i < j < |offers| ==> |offers[i]| <= |offers[j]|
  }

  lemma {:induction false} InsertOfferSorted(offer: seq<Entry>, sorted: seq<seq<Entry>>)
    requires ByLength(sorted)
    ensures ByLength(InsertOffer(offer, sorted))
    ensures var r := InsertOffer(offer, sorted);
      r != [] && (r[0] == offer || (sorted != [] && r[0] == sorted[0] && |sorted[0]| <= |offer|))
  {
    if sorted != [] && |offer| > |sorted[0]| {
      InsertOfferSorted(offer, sorted[1..]);
    }
  }

  lemma {:induction false} SortOffersSorted(offers: seq<seq<Entry>>)
    ensures ByLength(SortOffers(offers))
  {
    if offers != [] {
      SortOffersSorted(offers[1..]);
      InsertOfferSorted(offers[0], SortOffers(offers[1..]));
    }
  }

  lemma SortOffersKeeps(offers: seq<seq<Entry>>)
    ensures forall x :: x in SortOffers(offers) <==> x in offers
  {
    forall x
      ensures x in SortOffers(offers) <==> x in offers
    {
      assert x in multiset(SortOffers(offers)) <==> x in multiset(offers);
    }
  }

  /** Any two offers lie on one line, and the last one contains all others. */
  ghost predicate OneLine(offers: seq<seq<Entry>>) {
    && offers != []
    && (forall a <- offers :: forall b <- offers :: Extends(a, b) || Extends(b, a))
    && (forall a <- offers :: Extends(offers[|offers| - 1], a))
  }

  lemma OffersAreOneLine(floorChain: seq<Entry>, descendants: seq<seq<Entry>>, root: Root)
    requires Authentic(floorChain, root)
    requires GoodDescendants(descendants, floorChain, root)
    requires forall i, j :: 0 <= i < j < |descendants| ==>
      Extends(descendants[i], descendants[j]) || Extends(descendants[j], descendants[i])
    ensures OneLine(SortOffers([floorChain] + descendants))
  {
    hide Authentic, Extends, SortOffers, GoodDescendants;
    var all := [floorChain] + descendants;
    var offers := SortOffers(all);
    SortOffersSorted(all);
    SortOffersKeeps(all);
    assert floorChain in all;
    forall a, b | a in offers && b in offers
      ensures Extends(a, b) || Extends(b, a)
    {
      OffersComparable(floorChain, descendants, root, a, b);
    }
    forall a | a in offers
      ensures Extends(offers[|offers| - 1], a)
    {
      var i :| 0 <= i < |offers| && offers[i] == a;
      LongerExtends(offers[|offers| - 1], a);
    }
  }

  lemma OffersComparable(
    floorChain: seq<Entry>, descendants: seq<seq<Entry>>, root: Root, a: seq<Entry>, b: seq<Entry>)
    requires GoodDescendants(descendants, floorChain, root)
    requires forall i, j :: 0 <= i < j < |descendants| ==>
      Extends(descendants[i], descendants[j]) || Extends(descendants[j], descendants[i])
    requires a in [floorChain] + descendants && b in [floorChain] + descendants
    ensures Extends(a, b) || Extends(b, a)
  {
    hide Authentic, Extends;
    ExtendsReflexive(a);
    if a in descendants && b in descendants {
      var i :| 0 <= i < |descendants| && descendants[i] == a;
      var j :| 0 <= j < |descendants| && descendants[j] == b;
    } else if a in descendants {
      var i :| 0 <= i < |descendants| && descendants[i] == a;
    } else if b in descendants {
      var j :| 0 <= j < |descendants| && descendants[j] == b;
    }
  }

  lemma LongerExtends(a: seq<Entry>, b: seq<Entry>)
    requires Extends(a, b) || Extends(b, a)
    requires |b| <= |a|
    ensures Extends(a, b)
  {
  }

  // ---------------------------------------------------------------------------
  // The decision

  function Blocked(verdict: RecoveryClass): Report {
    Report(verdict, [], {}, false, true, None)
  }

  /** Every past head this device can authenticate is contained in `base`. */
  ghost predicate NothingDropped(ev: Evidence, base: seq<Entry>) {
    ev.history.Some? ==> forall id :: Some(id) in ev.history.value && ev.open(id).Ok? ==> Extends(base, ev.open(id).value)
  }

  /** The floor's chain, or a past head's chain that is not part of it. */
  ghost predicate IsOffer(ev: Evidence, floorChain: seq<Entry>, chain: seq<Entry>) {
    || chain == floorChain
    || (ev.history.Some? && chain != [] && Some(chain[0].id) in ev.history.value
        && ev.open(chain[0].id) == Ok(chain) && !InChain(floorChain, chain[0].id))
  }

  ghost predicate Forked(ev: Evidence, floorChain: seq<Entry>) {
    exists a, b :: IsOffer(ev, floorChain, a) && IsOffer(ev, floorChain, b) && !Extends(a, b) && !Extends(b, a)
  }

  ghost predicate AllDecided(ev: Evidence, floor: Floor, floorChain: seq<Entry>) {
    ev.history.Some? ==>
      && |UniqueHeads(ev.history.value)| <= MAX_RECOVERY_CANDIDATES
      && forall id :: Some(id) in ev.history.value ==> Decided(ev, floor, floorChain, id)
  }

  /** The offers as a set: exactly the floor and its authenticated descendants. */
  ghost predicate AreOffers(ev: Evidence, floorChain: seq<Entry>, offers: seq<seq<Entry>>) {
    forall chain :: chain in offers <==> IsOffer(ev, floorChain, chain)
  }

  lemma CollectedAreOffers(ev: Evidence, floorChain: seq<Entry>, descendants: seq<seq<Entry>>, heads: seq<Id>, root: Root)
    requires Sound(ev, root)
    requires Accounted(ev, floorChain, heads, descendants) && CollectedFrom(ev, floorChain, descendants, heads)
    requires ev.history.Some? ==> forall id :: Some(id) in ev.history.value <==> id in heads
    requires ev.history.None? ==> descendants == []
    ensures AreOffers(ev, floorChain, [floorChain] + descendants)
  {
    hide Authentic, InChain;
    var all := [floorChain] + descendants;
    forall chain: seq<Entry>
      ensures chain in all <==> IsOffer(ev, floorChain, chain)
    {
      if chain in all && chain != floorChain {
        assert chain in descendants;
        var i :| 0 <= i < |descendants| && descendants[i] == chain;
      }
      if IsOffer(ev, floorChain, chain) && chain != floorChain {
        assert chain != [] && chain[0].id in heads;
        assert chain in descendants;
      }
    }
  }

  /** The pinned floor opens to the manifest it was recorded from. */
  function FloorChain(ev: Evidence, floor: Floor): (r: Result<seq<Entry>>) {
    var chain :- ev.open(floor.headId);
    var _ :- Need(exists e <- chain :: e.id == floor.headId && e.manifest.generation == floor.generation
                    && e.manifest.root == floor.root && floor.policyGeneration <= e.manifest.policyGeneration);
    Ok(chain)
  }

  lemma FloorChainHead(ev: Evidence, floor: Floor, root: Root)
    requires Sound(ev, root) && FloorChain(ev, floor).Ok?
    ensures var chain := FloorChain(ev, floor).value;
      && Authentic(chain, root)
      && chain[0].id == floor.headId
      && chain[0].manifest.generation == floor.generation
  {
    hide Authentic;
    var chain := FloorChain(ev, floor).value;
    var e :| e in chain && e.id == floor.headId && e.manifest.generation == floor.generation;
    var k :| 0 <= k < |chain| && chain[k] == e;
    if k > 0 {
      IdsNeverRepeat(chain, root, 0, k);
    }
  }

  /** The offers: the floor, and every authenticated descendant of it in the
      carrier's history. */
  method CollectOffers(ev: Evidence, floor: Floor, floorChain: seq<Entry>, ghost root: Root)
    returns (r: Result<Report>)
    requires Sound(ev, root)
    requires FloorChain(ev, floor) == Ok(floorChain)
    ensures r.Ok? ==> r.value.classification.Invalid? && r.value.publishOn.None?
    ensures r.Ok? && !r.value.blocked ==>
      && OneLine(r.value.offers)
      && floorChain in r.value.offers
      && (forall offer <- r.value.offers :: Authentic(offer, root) && Extends(offer, floorChain))
      && NothingDropped(ev, r.value.offers[|r.value.offers| - 1])
      && (ev.history.None? ==> r.value.offers == [floorChain])
    ensures r.Ok? && !r.value.blocked <==> AllDecided(ev, floor, floorChain) && !Forked(ev, floorChain)
    ensures r.Ok? && r.value.conflict <==> AllDecided(ev, floor, floorChain) && Forked(ev, floorChain)
    ensures r.Ok? && (!r.value.blocked || r.value.conflict) ==> AreOffers(ev, floorChain, r.value.offers)
    ensures r.Ok? && r.value.conflict ==> r.value.blocked
  {
    hide Authentic, Extends, SortOffers, ScanOne, OneLine, FloorChain, UniqueHeads, NothingDropped, Decided, Forked,
      AreOffers, Comparable;
    FloorChainHead(ev, floor, root);
    var descendants: seq<seq<Entry>> := [];
    var replays: set<Id> := {};
    ghost var heads: seq<Id> := [];
    if ev.history.Some? {
      var unique := UniqueHeads(ev.history.value);
      heads := unique;
      if |unique| > MAX_RECOVERY_CANDIDATES {
        return Err({BudgetExhausted});
      }
      var scan := ScanHistory(ev, floor, floorChain, unique, root);
      match scan {
        case Exhausted => return Err({BudgetExhausted});
        case Stopped => return Ok(Blocked(Invalid));
        case Found(ds, rs) => descendants, replays := ds, rs;
      }
    }
    CollectedAreOffers(ev, floorChain, descendants, heads, root);
    var conflict := FindConflict(descendants);
    ConflictIsFork(ev, floorChain, descendants, root);
    if conflict {
      return Ok(Report(Invalid, [floorChain] + descendants, replays, true, true, None));
    }
    var offers := SortOffers([floorChain] + descendants);
    OffersAreSound(ev, floorChain, descendants, heads, root);
    SortedAreOffers(ev, floorChain, [floorChain] + descendants);
    return Ok(Report(Invalid, offers, replays, false, false, None));
  }

  lemma OffersAreSound(ev: Evidence, floorChain: seq<Entry>, descendants: seq<seq<Entry>>, heads: seq<Id>, root: Root)
    requires Sound(ev, root) && Authentic(floorChain, root) && GoodDescendants(descendants, floorChain, root)
    requires Accounted(ev, floorChain, heads, descendants)
    requires ev.history.Some? ==> forall id :: Some(id) in ev.history.value ==> id in heads
    requires ev.history.None? ==> descendants == []
    requires forall i, j :: 0 <= i < j < |descendants| ==>
      descendants[i] != [] && descendants[j] != [] && Comparable(descendants[i], descendants[j])
    ensures
      var offers := SortOffers([floorChain] + descendants);
      && OneLine(offers)
      && floorChain in offers
      && (forall offer <- offers :: Authentic(offer, root) && Extends(offer, floorChain))
      && NothingDropped(ev, offers[|offers| - 1])
      && (ev.history.None? ==> offers == [floorChain])
  {
    hide Authentic, Extends, SortOffers, OneLine, Comparable, NothingDropped;
    forall i, j | 0 <= i < j < |descendants|
      ensures Extends(descendants[i], descendants[j]) || Extends(descendants[j], descendants[i])
    {
      ComparableExtends(descendants[i], descendants[j], root);
    }
    OffersAreOneLine(floorChain, descendants, root);
    OffersAreGood(floorChain, descendants, root);
    DefaultDropsNothing(ev, floorChain, descendants, heads, root);
    if ev.history.None? {
      SingleOffer(floorChain);
    }
  }

  lemma SingleOffer(chain: seq<Entry>)
    ensures SortOffers([chain] + []) == [chain]
  {
    assert [chain] + [] == [chain];
    assert [chain][1..] == [];
  }

  lemma SortedAreOffers(ev: Evidence, floorChain: seq<Entry>, all: seq<seq<Entry>>)
    requires AreOffers(ev, floorChain, all)
    ensures AreOffers(ev, floorChain, SortOffers(all))
  {
    hide IsOffer, SortOffers;
    SortOffersKeeps(all);
  }

  /** The pairwise scan finds a conflict exactly when two offers are on different
      branches. */
  lemma ConflictIsFork(ev: Evidence, floorChain: seq<Entry>, descendants: seq<seq<Entry>>, root: Root)
    requires GoodDescendants(descendants, floorChain, root)
    requires AreOffers(ev, floorChain, [floorChain] + descendants)
    requires forall i :: 0 <= i < |descendants| ==> descendants[i] != []
    ensures (exists i, j :: 0 <= i < j < |descendants| && !Comparable(descendants[i], descendants[j])) <==>
      Forked(ev, floorChain)
  {
    hide Authentic, Extends, Comparable, IsOffer;
    var all := [floorChain] + descendants;
    if exists i, j :: 0 <= i < j < |descendants| && !Comparable(descendants[i], descendants[j]) {
      var i, j :| 0 <= i < j < |descendants| && !Comparable(descendants[i], descendants[j]);
      ComparableExtends(descendants[i], descendants[j], root);
      assert all[i + 1] in all && all[j + 1] in all;
      assert IsOffer(ev, floorChain, descendants[i]) && IsOffer(ev, floorChain, descendants[j]);
    } else {
      forall i, j | 0 <= i < j < |descendants|
        ensures Extends(descendants[i], descendants[j]) || Extends(descendants[j], descendants[i])
      {
        ComparableExtends(descendants[i], descendants[j], root);
      }
      forall a, b | IsOffer(ev, floorChain, a) && IsOffer(ev, floorChain, b)
        ensures Extends(a, b) || Extends(b, a)
      {
        assert a in all && b in all;
        OffersComparable(floorChain, descendants, root, a, b);
      }
    }
  }

  lemma OffersAreGood(floorChain: seq<Entry>, descendants: seq<seq<Entry>>, root: Root)
    requires Authentic(floorChain, root)
    requires GoodDescendants(descendants, floorChain, root)
    ensures var offers := SortOffers([floorChain] + descendants);
      floorChain in offers && forall offer <- offers :: Authentic(offer, root) && Extends(offer, floorChain)
  {
    hide Authentic, Extends, SortOffers;
    var all := [floorChain] + descendants;
    SortOffersKeeps(all);
    ExtendsReflexive(floorChain);
    assert floorChain in all;
    forall offer | offer in all
      ensures Authentic(offer, root) && Extends(offer, floorChain)
    {
      if offer != floorChain {
        var i :| 0 <= i < |descendants| && descendants[i] == offer;
      }
    }
  }

  lemma DefaultDropsNothing(
    ev: Evidence, floorChain: seq<Entry>, descendants: seq<seq<Entry>>, heads: seq<Id>, root: Root)
    requires Sound(ev, root) && Authentic(floorChain, root)
    requires OneLine(SortOffers([floorChain] + descendants))
    requires Accounted(ev, floorChain, heads, descendants)
    requires ev.history.Some? ==> forall id :: Some(id) in ev.history.value ==> id in heads
    ensures var offers := SortOffers([floorChain] + descendants);
      NothingDropped(ev, offers[|offers| - 1])
  {
    hide Authentic, Extends, SortOffers, InChain;
    var offers := SortOffers([floorChain] + descendants);
    var newest := offers[|offers| - 1];
    SortOffersKeeps([floorChain] + descendants);
    assert floorChain in [floorChain] + descendants;
    if ev.history.Some? {
      forall id | Some(id) in ev.history.value && ev.open(id).Ok?
        ensures Extends(newest, ev.open(id).value)
      {
        var chain := ev.open(id).value;
        if InChain(floorChain, id) {
          InChainExtends(floorChain, chain, root);
          ExtendsTransitive(newest, floorChain, chain);
        } else {
          assert chain in [floorChain] + descendants;
        }
      }
    }
  }

  function SelectOffer(offers: seq<seq<Entry>>, id: Id): (r: Option<seq<Entry>>)
    ensures r.Some? ==> r.value in offers && r.value != [] && r.value[0].id == id
    ensures r.None? ==> forall i :: 0 <= i < |offers| ==> offers[i] == [] || offers[i][0].id != id
  {
    if offers == [] then None
    else if offers[0] != [] && offers[0][0].id == id then Some(offers[0])
    else SelectOffer(offers[1..], id)
  }

  /** Everything that leads to offers: the head is proven invalid, the floor
      opens, history contains it, and history shows one line. */
  ghost predicate Recoverable(ev: Evidence) {
    && !(ev.current.Err? && BudgetExhausted in ev.current.causes)
    && ClassifyHead(ev).Invalid?
    && ev.floor.Some?
    && (ev.history.Some? ==> Some(ev.floor.value.headId) in ev.history.value)
    && FloorChain(ev, ev.floor.value).Ok?
    && AllDecided(ev, ev.floor.value, FloorChain(ev, ev.floor.value).value)
    && !Forked(ev, FloorChain(ev, ev.floor.value).value)
  }

  ghost predicate IsNewest(ev: Evidence, floorChain: seq<Entry>, base: seq<Entry>) {
    forall chain :: IsOffer(ev, floorChain, chain) ==> Extends(base, chain)
  }

  /** The base that the caller's options name may be published on. */
  ghost predicate MayPublishOn(ev: Evidence, options: Options, device: DeviceId, floorChain: seq<Entry>, base: seq<Entry>) {
    && base != [] && IsOffer(ev, floorChain, base)
    && (options.base.Some? ==> base[0].id == options.base.value)
    && (IsNewest(ev, floorChain, base) || (options.base.Some? && options.discardNewer))
    && (ev.history.Some? || options.acceptStaleFloor)
    && base[0].policy.IsActiveWriter(device)
    && ev.restorable(base)
  }

  /** `recover`. A base to publish on comes back only for an invalid head with a
      pinned floor, and only on the floor or an authenticated descendant of it
      whose policy lists this device as a writer. Unless the caller asks to
      discard, nothing this device can authenticate in history is dropped. */
  method Recover(ev: Evidence, options: Options, device: DeviceId, ghost root: Root) returns (r: Result<Report>)
    requires Sound(ev, root)
    ensures r.Ok? && r.value.publishOn.Some? ==>
      var base := r.value.publishOn.value;
      && options.publish
      && ev.floor.Some?
      && ClassifyHead(ev).Invalid?
      && FloorChain(ev, ev.floor.value).Ok?
      && Authentic(base, root)
      && Extends(base, FloorChain(ev, ev.floor.value).value)
      && ThroughFloor(base, ev.floor.value)
      && base[0].policy.IsActiveWriter(device)
      && ev.restorable(base)
      && (ev.history.None? ==> options.acceptStaleFloor && base == FloorChain(ev, ev.floor.value).value)
      && (!options.discardNewer ==> NothingDropped(ev, base))
      && (options.base.Some? ==> base[0].id == options.base.value)
    ensures r.Ok? && r.value.publishOn.Some? <==>
      && options.publish && Recoverable(ev)
      && exists base :: MayPublishOn(ev, options, device, FloorChain(ev, ev.floor.value).value, base)
    ensures !options.publish ==> (r.Ok? && !r.value.blocked <==> Recoverable(ev))
    ensures r.Ok? && !r.value.blocked ==>
      Recoverable(ev) && OneLine(r.value.offers) && AreOffers(ev, FloorChain(ev, ev.floor.value).value, r.value.offers)
    ensures r.Ok? && r.value.conflict ==> r.value.publishOn.None?
  {
    hide Authentic, Extends, FloorChain, OneLine, UniqueHeads, AllDecided, Forked, AreOffers, MayPublishOn, NothingDropped,
      ThroughFloor, Classify;
    var verdict := ClassifyHead(ev);
    if ev.current.Err? && BudgetExhausted in ev.current.causes {
      return Err({BudgetExhausted});
    }
    if !verdict.Invalid? {
      return Ok(Blocked(verdict));
    }
    if ev.floor.None? {
      return Ok(Blocked(Invalid));
    }
    var floor := ev.floor.value;
    if ev.history.Some? && Some(floor.headId) !in ev.history.value {
      return Ok(Blocked(Discontinuous));
    }
    var opening := FloorChain(ev, floor);
    if opening.Err? {
      if BudgetExhausted in opening.causes {
        return Err({BudgetExhausted});
      }
      return Ok(Blocked(Invalid));
    }
    var floorChain := opening.value;
    r := CollectOffers(ev, floor, floorChain, root);
    if r.Err? || r.value.blocked || !options.publish {
      return;
    }
    r := SelectBase(ev, options, device, floor, floorChain, r.value, root);
  }

  method SelectBase(
    ev: Evidence, options: Options, device: DeviceId, floor: Floor, floorChain: seq<Entry>, report: Report,
    ghost root: Root)
    returns (r: Result<Report>)
    requires Sound(ev, root) && FloorChain(ev, floor) == Ok(floorChain)
    requires OneLine(report.offers) && !report.conflict && report.publishOn.None?
    requires forall offer <- report.offers :: Authentic(offer, root) && Extends(offer, floorChain)
    requires NothingDropped(ev, report.offers[|report.offers| - 1])
    requires ev.history.None? ==> report.offers == [floorChain]
    requires AreOffers(ev, floorChain, report.offers)
    ensures r.Ok? && !r.value.conflict && r.value.offers == report.offers
    ensures r.value.publishOn.Some? <==> exists base :: MayPublishOn(ev, options, device, floorChain, base)
    ensures r.value.publishOn.Some? ==>
      var base := r.value.publishOn.value;
      && Authentic(base, root)
      && Extends(base, floorChain)
      && ThroughFloor(base, floor)
      && base[0].policy.IsActiveWriter(device)
      && ev.restorable(base)
      && (ev.history.None? ==> options.acceptStaleFloor && base == floorChain)
      && (!options.discardNewer ==> NothingDropped(ev, base))
      && (options.base.Some? ==> base[0].id == options.base.value)
  {
    hide Authentic, Extends, FloorChain, NothingDropped, ThroughFloor, MayPublishOn, AreOffers;
    FloorChainHead(ev, floor, root);
    var newest := report.offers[|report.offers| - 1];
    assert newest in report.offers;
    SelectionDecides(ev, options, device, floorChain, report.offers, root);
    var selectedId := if options.base.Some? then options.base.value else newest[0].id;
    var selected := SelectOffer(report.offers, selectedId);
    if selected.None? {
      return Ok(report.(blocked := true));
    }
    var base := selected.value;
    if base[0].manifest.generation < newest[0].manifest.generation && !options.discardNewer {
      return Ok(report.(blocked := true));
    }
    if ev.history.None? && !options.acceptStaleFloor {
      return Ok(report.(blocked := true));
    }
    if !base[0].policy.IsActiveWriter(device) || !ev.restorable(base) {
      return Ok(report.(blocked := true));
    }
    NotOlderIsNewest(base, newest, root);
    ExtendsIsThrough(base, floorChain, floor);
    return Ok(report.(publishOn := Some(base)));
  }

  /** The base the code selects is the only one that may be published on. */
  lemma SelectionDecides(
    ev: Evidence, options: Options, device: DeviceId, floorChain: seq<Entry>, offers: seq<seq<Entry>>, root: Root)
    requires OneLine(offers) && AreOffers(ev, floorChain, offers)
    requires forall offer <- offers :: Authentic(offer, root)
    ensures
      var newest := offers[|offers| - 1];
      newest != [] &&
      var id := if options.base.Some? then options.base.value else newest[0].id;
      var selected := SelectOffer(offers, id);
      && (selected.Some? ==> Authentic(selected.value, root))
      && ((exists base :: MayPublishOn(ev, options, device, floorChain, base)) <==>
           && selected.Some?
           && (selected.value[0].manifest.generation >= newest[0].manifest.generation || options.discardNewer)
           && (ev.history.Some? || options.acceptStaleFloor)
           && selected.value[0].policy.IsActiveWriter(device)
           && ev.restorable(selected.value))
  {
    hide Authentic, Extends, FindDevice, IsOffer, SelectOffer, IsNewest;
    var newest := offers[|offers| - 1];
    assert newest in offers;
    NotEmpty(newest, root);
    var id := if options.base.Some? then options.base.value else newest[0].id;
    var selected := SelectOffer(offers, id);
    LastIsNewest(ev, floorChain, offers);
    if selected.Some? {
      NewestByGeneration(ev, floorChain, offers, selected.value, root);
      if options.base.None? {
        SameHeadSameChain(selected.value, newest, root);
      }
      assert IsOffer(ev, floorChain, selected.value);
      if && (selected.value[0].manifest.generation >= newest[0].manifest.generation || options.discardNewer)
         && (ev.history.Some? || options.acceptStaleFloor)
         && selected.value[0].policy.IsActiveWriter(device)
         && ev.restorable(selected.value)
      {
        assert MayPublishOn(ev, options, device, floorChain, selected.value);
      }
    }
    forall base | MayPublishOn(ev, options, device, floorChain, base)
      ensures selected == Some(base)
    {
      assert base in offers;
      NewestByGeneration(ev, floorChain, offers, base, root);
      if options.base.None? {
        NewestIsUnique(ev, floorChain, offers, base, root);
      }
      SameHeadSameChain(selected.value, base, root);
    }
  }

  lemma NotEmpty(chain: seq<Entry>, root: Root)
    requires Authentic(chain, root)
    ensures chain != []
  {
  }

  lemma LastIsNewest(ev: Evidence, floorChain: seq<Entry>, offers: seq<seq<Entry>>)
    requires OneLine(offers) && AreOffers(ev, floorChain, offers)
    ensures IsNewest(ev, floorChain, offers[|offers| - 1])
  {
    hide Extends, IsOffer;
  }

  lemma NewestIsUnique(ev: Evidence, floorChain: seq<Entry>, offers: seq<seq<Entry>>, base: seq<Entry>, root: Root)
    requires OneLine(offers) && AreOffers(ev, floorChain, offers) && base in offers
    requires IsNewest(ev, floorChain, base)
    ensures base == offers[|offers| - 1]
  {
    hide IsOffer;
    var newest := offers[|offers| - 1];
    assert newest in offers;
    assert IsOffer(ev, floorChain, newest);
    assert Extends(base, newest) && Extends(newest, base);
  }

  lemma NewestByGeneration(ev: Evidence, floorChain: seq<Entry>, offers: seq<seq<Entry>>, base: seq<Entry>, root: Root)
    requires OneLine(offers) && AreOffers(ev, floorChain, offers) && base in offers
    requires forall offer <- offers :: Authentic(offer, root)
    requires base != [] && offers[|offers| - 1] != []
    ensures IsNewest(ev, floorChain, base) <==>
      base[0].manifest.generation >= offers[|offers| - 1][0].manifest.generation
  {
    hide Authentic, Extends, IsOffer;
    var newest := offers[|offers| - 1];
    assert newest in offers;
    NotOlderIsNewest(base, newest, root);
    LastIsNewest(ev, floorChain, offers);
    if IsNewest(ev, floorChain, base) {
      NewestIsUnique(ev, floorChain, offers, base, root);
    }
  }

  lemma NotOlderIsNewest(base: seq<Entry>, newest: seq<Entry>, root: Root)
    requires Authentic(base, root) && Authentic(newest, root)
    requires Extends(newest, base)
    ensures base[0].manifest.generation >= newest[0].manifest.generation ==> base == newest
  {
    hide Authentic;
    ChainShape(base, root);
    ChainShape(newest, root);
  }

  lemma ExtendsIsThrough(base: seq<Entry>, floorChain: seq<Entry>, floor: Floor)
    requires Extends(base, floorChain) && floorChain != []
    requires floorChain[0].id == floor.headId && floorChain[0].manifest.generation == floor.generation
    ensures ThroughFloor(base, floor)
  {
    assert base[|base| - |floorChain|..][0] == floorChain[0];
    assert floorChain[0] in base;
  }
}
