/** Building and sealing a generation: `build_envelopes` and `seal_manifest`
    of src/manifest.rs, and `seal_and_store_manifest` of src/repository.rs. */
module Sealing {
  import opened Prelude
  import opened Policy
  import opened Manifests
  import opened Chain
  import opened Authenticity
  import opened Authorization

  // ---------------------------------------------------------------------------
  // Envelopes

  /** What the random generator yields for one padding envelope. */
  datatype DummyDraw = DummyDraw(recipient: nat, seed: nat, aad: nat, key: Key)

  /** The randomness one seal consumes: a seed per reader, one throwaway seal
      per padding slot and the two box nonces. */
  datatype Draws = Draws(seed: nat -> nat, dummy: nat -> DummyDraw, bodyNonce: nat, headerNonce: nat)

  datatype Pair = Pair(point: nat, envelope: Envelope, entry: AuditEntry)

  function ReaderPair(m: Manifest, key: Key, reader: DeviceRecord, seed: nat): Pair {
    Pair(seed,
         WrapWithSeed(reader.public.wrapping, key,
                      GenerationAad(m.root, m.generation, reader.public.deviceId, CommitTo(key)), seed),
         Recipient(reader.public.deviceId, seed))
  }

  function DummyPair(draw: DummyDraw): Pair {
    Pair(draw.seed, WrapWithSeed(draw.recipient, draw.key, RandomAad(draw.aad), draw.seed), Dummy)
  }

  function NextPowerFrom(power: nat, n: nat): (r: nat)
    requires power >= 1 && PowerOfTwo(power)
    ensures PowerOfTwo(r) && r >= n && r >= power
    ensures r == power || r < 2 * n
    decreases n - power
  {
    if power >= n then power else NextPowerFrom(2 * power, n)
  }

  /** The least power of two that is at least `n` and at least four. */
  function PaddedCount(n: nat): (r: nat)
    ensures PowerOfTwo(r) && r >= n && r >= MIN_ENVELOPES
    ensures forall p: nat :: PowerOfTwo(p) && p >= n && p >= MIN_ENVELOPES ==> r <= p
  {
    NextPowerIsLeast(MIN_ENVELOPES, n);
    NextPowerFrom(MIN_ENVELOPES, n)
  }

  lemma NextPowerIsLeast(power: nat, n: nat)
    requires power >= 1 && PowerOfTwo(power)
    ensures forall p: nat :: PowerOfTwo(p) && p >= n && p >= power ==> NextPowerFrom(power, n) <= p
    decreases n - power
  {
    if power < n {
      NextPowerIsLeast(2 * power, n);
      forall p: nat | PowerOfTwo(p) && p >= n && p >= power
        ensures p >= 2 * power
      {
        PowersAreFarApart(power, p);
      }
    }
  }

  lemma PowersAreFarApart(a: nat, b: nat)
    requires PowerOfTwo(a) && PowerOfTwo(b) && a < b
    ensures 2 * a <= b
  {
    if a > 1 {
      PowersAreFarApart(a / 2, b / 2);
    }
  }

  function UnsortedPairs(readers: seq<DeviceRecord>, count: nat, m: Manifest, key: Key, draws: Draws): (r: seq<Pair>)
    requires |readers| <= count
    ensures |r| == count
    ensures forall i :: 0 <= i < |readers| ==> r[i] == ReaderPair(m, key, readers[i], draws.seed(i))
    ensures forall i :: |readers| <= i < count ==> r[i] == DummyPair(draws.dummy(i - |readers|))
  {
    seq(count, i requires 0 <= i < count =>
      if i < |readers| then ReaderPair(m, key, readers[i], draws.seed(i)) else DummyPair(draws.dummy(i - |readers|)))
  }

  function InsertPair(pair: Pair, sorted: seq<Pair>): (r: seq<Pair>)
    ensures multiset(r) == multiset(sorted) + multiset{pair}
  {
    if sorted == [] || pair.point <= sorted[0].point then
      [pair] + sorted
    else
      assert sorted == [sorted[0]] + sorted[1..];
      [sorted[0]] + InsertPair(pair, sorted[1..])
  }

  predicate NonDecreasing(pairs: seq<Pair>) {
    forall i, j :: 0 <= i < j < |pairs| ==> pairs[i].point <= pairs[j].point
  }

  lemma {:induction false} InsertPairSorted(pair: Pair, sorted: seq<Pair>)
    requires NonDecreasing(sorted)
    ensures NonDecreasing(InsertPair(pair, sorted))
    ensures var r := InsertPair(pair, sorted);
      |r| > 0 && (r[0] == pair || (sorted != [] && r[0] == sorted[0] && sorted[0].point <= pair.point))
  {
    if sorted != [] && pair.point > sorted[0].point {
      InsertPairSorted(pair, sorted[1..]);
    }
  }

  lemma {:induction false} SortPairsSorted(pairs: seq<Pair>)
    ensures NonDecreasing(SortPairs(pairs))
  {
    if pairs != [] {
      SortPairsSorted(pairs[1..]);
      InsertPairSorted(pairs[0], SortPairs(pairs[1..]));
    }
  }

  /** A stable sort by encapsulated key. */
  function SortPairs(pairs: seq<Pair>): (r: seq<Pair>)
    ensures multiset(r) == multiset(pairs)
  {
    if pairs == [] then []
    else
      assert pairs == [pairs[0]] + pairs[1..];
      InsertPair(pairs[0], SortPairs(pairs[1..]))
  }

  function EnvelopePairs(policy: PolicyState, m: Manifest, key: Key, draws: Draws): Result<seq<Pair>> {
    var readers := ActiveReaders(policy.body.devices);
    var _ :- Need(readers != []);
    var count := PaddedCount(|readers|);
    var _ :- Need(count <= MAX_ENVELOPES);
    Ok(SortPairs(UnsortedPairs(readers, count, m, key, draws)))
  }

  /** `build_envelopes`: one pair per active reader, padded and sorted. */
  method BuildEnvelopes(policy: PolicyState, m: Manifest, key: Key, draws: Draws)
    returns (r: Result<(seq<Envelope>, seq<AuditEntry>)>)
    ensures
      var pairs := EnvelopePairs(policy, m, key, draws);
      r == if pairs.Err? then Err(pairs.causes) else Ok((EnvelopesOf(pairs.value), AuditOf(pairs.value)))
  {
    var readers := ActiveReaders(policy.body.devices);
    if readers == [] {
      return Err({Rejected});
    }
    var count := PaddedCount(|readers|);
    if count > MAX_ENVELOPES {
      return Err({Rejected});
    }
    var pairs := PushPairs(readers, count, m, key, draws);
    pairs := SortPairs(pairs);
    r := Unzip(pairs);
  }

  method PushPairs(readers: seq<DeviceRecord>, count: nat, m: Manifest, key: Key, draws: Draws) returns (pairs: seq<Pair>)
    requires |readers| <= count
    ensures pairs == UnsortedPairs(readers, count, m, key, draws)
  {
    hide ReaderPair, DummyPair;
    ghost var expected := UnsortedPairs(readers, count, m, key, draws);
    pairs := [];
    for i := 0 to |readers|
      invariant pairs == expected[..i]
    {
      pairs := pairs + [ReaderPair(m, key, readers[i], draws.seed(i))];
    }
    while |pairs| < count
      invariant |readers| <= |pairs| <= count
      invariant pairs == expected[..|pairs|]
    {
      pairs := pairs + [DummyPair(draws.dummy(|pairs| - |readers|))];
    }
    assert pairs == expected;
  }

  method Unzip(pairs: seq<Pair>) returns (r: Result<(seq<Envelope>, seq<AuditEntry>)>)
    ensures r == Ok((EnvelopesOf(pairs), AuditOf(pairs)))
  {
    var envelopes: seq<Envelope> := [];
    var audit: seq<AuditEntry> := [];
    for i := 0 to |pairs|
      invariant envelopes == EnvelopesOf(pairs)[..i]
      invariant audit == AuditOf(pairs)[..i]
    {
      envelopes := envelopes + [pairs[i].envelope];
      audit := audit + [pairs[i].entry];
    }
    assert envelopes == EnvelopesOf(pairs) && audit == AuditOf(pairs);
    return Ok((envelopes, audit));
  }

  function EnvelopesOf(pairs: seq<Pair>): (r: seq<Envelope>)
    ensures |r| == |pairs|
    ensures forall i :: 0 <= i < |pairs| ==> r[i] == pairs[i].envelope
  {
    seq(|pairs|, i requires 0 <= i < |pairs| => pairs[i].envelope)
  }

  function AuditOf(pairs: seq<Pair>): (r: seq<AuditEntry>)
    ensures |r| == |pairs|
    ensures forall i :: 0 <= i < |pairs| ==> r[i] == pairs[i].entry
  {
    seq(|pairs|, i requires 0 <= i < |pairs| => pairs[i].entry)
  }

  // ---------------------------------------------------------------------------
  // Sealing

  function SealManifest(signer: KeyFile, policy: PolicyState, key: Key, m: Manifest, draws: Draws): Result<Blob> {
    var _ :- ValidateManifestPolicy(m, policy);
    var _ :- Supported(m.authorization == Writer || m.authorization == PolicyTransition);
    var _ :- ValidateIntroducedPolicy(m, policy, m.authorization == PolicyTransition);
    var _ :- Need(ValidPackDelta(m));
    var pairs :- EnvelopePairs(policy, m, key, draws);
    var header := SealedHeaderOf(m, key, EnvelopesOf(pairs), ContentFor(signer, m, AuditOf(pairs)), draws);
    var _ :- ValidatePublicHeader(header);
    var _ :- Need(ValidLayout(header.envelopes));
    Ok(Encode(Assemble(signer, m, key, header, ContentFor(signer, m, AuditOf(pairs)), draws)))
  }

  function BodyFor(m: Manifest): Body {
    Body(m.refs, m.newPacks, m.predecessorKeyWrap, m.introducedPolicy)
  }

  function BodyBox(m: Manifest, key: Key, draws: Draws): Box<Text<Body>> {
    Sealed(Subkey(key, m.root, m.generation, ManifestBodyKey, 0), draws.bodyNonce,
           BodyAad(m.root, m.generation), Encode(BodyFor(m)))
  }

  function ContentFor(signer: KeyFile, m: Manifest, audit: seq<AuditEntry>): SealedContent {
    SealedContent(m.policyId, m.policyGeneration, signer.Id(), m.authorization, m.totalPackCount, audit)
  }

  function SealedHeaderOf(m: Manifest, key: Key, envelopes: seq<Envelope>, content: SealedContent, draws: Draws): Header {
    Header(m.formatVersion, m.root, m.generation, m.previous, CommitTo(key), envelopes,
           BodyDigestOf(BodyBox(m, key, draws)), ContentDigestOf(Encode(content)))
  }

  function Assemble(signer: KeyFile, m: Manifest, key: Key, header: Header, content: SealedContent, draws: Draws)
    : ManifestEnvelope
  {
    var exactHeader := Encode(header);
    var exactContent := Encode(content);
    var signature := Signed(signer.signing, SignedParts(exactHeader, exactContent, header.bodyDigest));
    ManifestEnvelope(
      exactHeader,
      Sealed(SubkeyOf(key, header, SealedHeaderKey), draws.headerNonce, HeaderAad(exactHeader),
             Encode(SealedHeader(exactContent, signature))),
      BodyBox(m, key, draws))
  }

  /** `seal_and_store_manifest`: validate, seal, store, then open and verify the
      stored bytes as a reader would. */
  function SealAndStore(
    previous: Option<Entry>, policy: PolicyState, parentPolicy: Option<PolicyState>, key: Key, m: Manifest,
    signer: KeyFile, draws: Draws): Result<Entry>
  {
    var _ :- if previous.Some? then ValidateManifestSuccessor(m, previous.value.id, previous.value.manifest, policy)
             else ValidateManifestGenesis(m, policy);
    var blob :- SealManifest(signer, policy, key, m, draws);
    var unsealed :- OpenManifest(blob, key);
    var _ :- VerifyManifest(unsealed, policy, parentPolicy, key);
    var _ :- if previous.Some? then SelfCheckLink(key, unsealed.manifest, previous.value) else Ok(());
    var _ :- Need(unsealed.header.generation == m.generation);
    Ok(Entry(ObjectId(blob), unsealed.manifest, unsealed.header, policy, key, unsealed.claimedSigner))
  }

  function SelfCheckLink(key: Key, m: Manifest, previous: Entry): Result<()> {
    var recovered :- UnwrapPredecessorKey(key, m, previous.header);
    Need(recovered == previous.key)
  }

  // ---------------------------------------------------------------------------
  // The padded, sorted list always passes the layout and audit checks

  /** The encapsulated keys that one seal draws are pairwise distinct. */
  predicate DistinctDraws(readers: nat, draws: Draws) {
    var n := PaddedCount(readers);
    forall i, j :: 0 <= i < j < n ==> Point(readers, draws, i) != Point(readers, draws, j)
  }

  function Point(readers: nat, draws: Draws, i: nat): nat {
    if i < readers then draws.seed(i) else draws.dummy(i - readers).seed
  }

  lemma InMultiset<T>(a: seq<T>, b: seq<T>, x: T)
    requires multiset(a) == multiset(b)
    ensures x in a <==> x in b
  {
    assert x in multiset(a) <==> x in multiset(b);
  }

  lemma SortedIsStrict(unsorted: seq<Pair>)
    requires forall i, j :: 0 <= i < j < |unsorted| ==> unsorted[i].point != unsorted[j].point
    ensures var sorted := SortPairs(unsorted);
      |sorted| == |unsorted| && forall i, j :: 0 <= i < j < |sorted| ==> sorted[i].point < sorted[j].point
  {
    var sorted := SortPairs(unsorted);
    SortPairsSorted(unsorted);
    assert |sorted| == |multiset(sorted)| == |multiset(unsorted)| == |unsorted|;
    forall i, j | 0 <= i < j < |sorted|
      ensures sorted[i].point < sorted[j].point
    {
      if sorted[i].point == sorted[j].point {
        SamePointTwice(sorted, unsorted, i, j);
      }
    }
  }

  /** Two positions with one point would need two such elements before sorting. */
  lemma SamePointTwice(sorted: seq<Pair>, unsorted: seq<Pair>, i: nat, j: nat)
    requires multiset(sorted) == multiset(unsorted)
    requires forall k, l :: 0 <= k < l < |unsorted| ==> unsorted[k].point != unsorted[l].point
    requires i < j < |sorted|
    ensures sorted[i].point != sorted[j].point
  {
    InMultiset(sorted, unsorted, sorted[i]);
    InMultiset(sorted, unsorted, sorted[j]);
    var k :| 0 <= k < |unsorted| && unsorted[k] == sorted[i];
    var l :| 0 <= l < |unsorted| && unsorted[l] == sorted[j];
    if k == l {
      CountTwice(sorted, i, j);
      CountOnce(unsorted, k);
    }
  }

  lemma CountTwice<T>(s: seq<T>, i: nat, j: nat)
    requires i < j < |s| && s[i] == s[j]
    ensures multiset(s)[s[i]] >= 2
  {
    assert s == s[..i + 1] + s[i + 1..];
    assert s[i] in s[..i + 1] && s[j] == s[i + 1..][j - i - 1];
    assert s[j] in s[i + 1..];
    assert multiset(s) == multiset(s[..i + 1]) + multiset(s[i + 1..]);
  }

  lemma CountOnce(s: seq<Pair>, k: nat)
    requires forall a, b :: 0 <= a < b < |s| ==> s[a].point != s[b].point
    requires k < |s|
    ensures multiset(s)[s[k]] == 1
  {
    assert s == s[..k] + [s[k]] + s[k + 1..];
    assert s[k] !in s[..k] && s[k] !in s[k + 1..];
    assert multiset(s) == multiset(s[..k]) + multiset{s[k]} + multiset(s[k + 1..]);
  }

  lemma {:induction false} ReadersDistinct(devices: seq<DeviceRecord>)
    requires DistinctIds(devices)
    ensures DistinctIds(ActiveReaders(devices))
  {
    if devices != [] {
      assert DistinctIds(devices[1..]);
      ReadersDistinct(devices[1..]);
      var readers := ActiveReaders(devices);
      var rest := ActiveReaders(devices[1..]);
      if devices[0].ActiveReader() {
        forall i, j | 0 <= i < j < |readers|
          ensures readers[i].public.deviceId != readers[j].public.deviceId
        {
          assert readers[j] == rest[j - 1] && rest[j - 1] in devices[1..];
          if i > 0 {
            assert readers[i] == rest[i - 1];
          }
        }
      }
    }
  }

  lemma UnsortedPointsDistinct(readers: seq<DeviceRecord>, m: Manifest, key: Key, draws: Draws)
    requires DistinctDraws(|readers|, draws)
    ensures
      var unsorted := UnsortedPairs(readers, PaddedCount(|readers|), m, key, draws);
      forall i, j :: 0 <= i < j < |unsorted| ==> unsorted[i].point != unsorted[j].point
  {
    var unsorted := UnsortedPairs(readers, PaddedCount(|readers|), m, key, draws);
    assert forall i :: 0 <= i < |unsorted| ==> unsorted[i].point == Point(|readers|, draws, i);
  }

  /** What sealing knows about the list it has built. */
  ghost predicate GoodPairs(pairs: seq<Pair>, readers: seq<DeviceRecord>, m: Manifest, key: Key, draws: Draws) {
    && |pairs| == PaddedCount(|readers|)
    && (forall i, j :: 0 <= i < j < |pairs| ==> pairs[i].point < pairs[j].point)
    && (forall pair <- pairs :: pair.envelope.encapsulated == Encapsulated(pair.point) && WellSized(pair.envelope))
    && (forall pair <- pairs :: pair.entry.Recipient? ==>
          exists k :: 0 <= k < |readers| && pair == ReaderPair(m, key, readers[k], draws.seed(k)))
    && (forall k :: 0 <= k < |readers| ==> ReaderPair(m, key, readers[k], draws.seed(k)) in pairs)
  }

  lemma SortedFromUnsorted(readers: seq<DeviceRecord>, count: nat, m: Manifest, key: Key, draws: Draws, pair: Pair)
    requires |readers| <= count
    requires pair in SortPairs(UnsortedPairs(readers, count, m, key, draws))
    ensures pair.envelope.encapsulated == Encapsulated(pair.point) && WellSized(pair.envelope)
    ensures pair.entry.Recipient? ==>
      exists k :: 0 <= k < |readers| && pair == ReaderPair(m, key, readers[k], draws.seed(k))
  {
    var unsorted := UnsortedPairs(readers, count, m, key, draws);
    InMultiset(SortPairs(unsorted), unsorted, pair);
    var k :| 0 <= k < |unsorted| && unsorted[k] == pair;
  }

  lemma PairsAreGood(policy: PolicyState, m: Manifest, key: Key, draws: Draws)
    requires EnvelopePairs(policy, m, key, draws).Ok?
    requires DistinctDraws(|ActiveReaders(policy.body.devices)|, draws)
    ensures GoodPairs(EnvelopePairs(policy, m, key, draws).value, ActiveReaders(policy.body.devices), m, key, draws)
  {
    hide ActiveReaders, SortPairs, PaddedCount, DistinctDraws;
    var readers := ActiveReaders(policy.body.devices);
    var count := PaddedCount(|readers|);
    var unsorted := UnsortedPairs(readers, count, m, key, draws);
    var pairs := EnvelopePairs(policy, m, key, draws).value;
    UnsortedPointsDistinct(readers, m, key, draws);
    SortedIsStrict(unsorted);
    forall pair | pair in pairs
      ensures pair.envelope.encapsulated == Encapsulated(pair.point) && WellSized(pair.envelope)
      ensures pair.entry.Recipient? ==>
        exists k :: 0 <= k < |readers| && pair == ReaderPair(m, key, readers[k], draws.seed(k))
    {
      SortedFromUnsorted(readers, count, m, key, draws, pair);
    }
    forall k | 0 <= k < |readers|
      ensures ReaderPair(m, key, readers[k], draws.seed(k)) in pairs
    {
      assert unsorted[k] in unsorted;
      InMultiset(pairs, unsorted, unsorted[k]);
    }
  }

  lemma GoodPairsLayout(pairs: seq<Pair>, readers: seq<DeviceRecord>, m: Manifest, key: Key, draws: Draws)
    requires GoodPairs(pairs, readers, m, key, draws)
    ensures ValidLayout(EnvelopesOf(pairs))
  {
    var envelopes := EnvelopesOf(pairs);
    assert forall i :: 0 <= i < |pairs| ==> pairs[i] in pairs;
    forall i, j | 0 <= i < j < |envelopes|
      ensures WellSized(envelopes[i]) && WellSized(envelopes[j])
      ensures envelopes[i].encapsulated.point < envelopes[j].encapsulated.point
    {
      assert pairs[i] in pairs && pairs[j] in pairs;
    }
  }

  lemma AuditEntryMatches(
    pairs: seq<Pair>, policy: PolicyState, m: Manifest, key: Key, draws: Draws, header: Header, i: nat)
    requires ValidBody(policy.body)
    requires GoodPairs(pairs, ActiveReaders(policy.body.devices), m, key, draws)
    requires header.envelopes == EnvelopesOf(pairs) && header.commitment == CommitTo(key)
    requires header.root == m.root && header.generation == m.generation
    requires i < |pairs| && pairs[i].entry.Recipient?
    ensures pairs[i].entry.deviceId in ReaderIds(policy)
    ensures policy.Device(pairs[i].entry.deviceId).Some?
    ensures header.envelopes[i] ==
      EnvelopeFor(header, policy.Device(pairs[i].entry.deviceId).value, key, pairs[i].entry.seed)
  {
    hide ActiveReaders;
    var readers := ActiveReaders(policy.body.devices);
    assert pairs[i] in pairs;
    var k :| 0 <= k < |readers| && pairs[i] == ReaderPair(m, key, readers[k], draws.seed(k));
    assert readers[k] in readers;
    DeviceIsUnique(policy.body.devices, readers[k]);
  }

  lemma AuditNamesOnce(
    pairs: seq<Pair>, readers: seq<DeviceRecord>, m: Manifest, key: Key, draws: Draws, i: nat, j: nat)
    requires DistinctIds(readers)
    requires GoodPairs(pairs, readers, m, key, draws)
    requires i < j < |pairs| && pairs[i].entry.Recipient? && pairs[j].entry.Recipient?
    ensures pairs[i].entry.deviceId != pairs[j].entry.deviceId
  {
    assert pairs[i] in pairs && pairs[j] in pairs;
    var k :| 0 <= k < |readers| && pairs[i] == ReaderPair(m, key, readers[k], draws.seed(k));
    var l :| 0 <= l < |readers| && pairs[j] == ReaderPair(m, key, readers[l], draws.seed(l));
    assert pairs[i].point < pairs[j].point;
  }

  lemma AuditCovers(
    pairs: seq<Pair>, readers: seq<DeviceRecord>, m: Manifest, key: Key, draws: Draws, reader: DeviceRecord)
    returns (i: nat)
    requires GoodPairs(pairs, readers, m, key, draws)
    requires reader in readers
    ensures i < |pairs| && pairs[i].entry.Recipient? && pairs[i].entry.deviceId == reader.public.deviceId
    ensures pairs[i] == ReaderPair(m, key, reader, pairs[i].point)
  {
    var k :| 0 <= k < |readers| && readers[k] == reader;
    var pair := ReaderPair(m, key, readers[k], draws.seed(k));
    i :| 0 <= i < |pairs| && pairs[i] == pair;
  }

  lemma GoodPairsAudit(pairs: seq<Pair>, policy: PolicyState, m: Manifest, key: Key, draws: Draws, header: Header)
    requires ValidBody(policy.body)
    requires GoodPairs(pairs, ActiveReaders(policy.body.devices), m, key, draws)
    requires header.envelopes == EnvelopesOf(pairs) && header.commitment == CommitTo(key)
    requires header.root == m.root && header.generation == m.generation
    ensures ValidAudit(header, AuditOf(pairs), policy, key)
  {
    hide ActiveReaders, GoodPairs, EnvelopeFor, FindDevice, ValidActiveRoles, ValidDeviceRoots, DistinctActiveNames;
    var audit := AuditOf(pairs);
    var readers := ActiveReaders(policy.body.devices);
    ReadersDistinct(policy.body.devices);
    forall i | 0 <= i < |audit| && audit[i].Recipient?
      ensures audit[i].deviceId in ReaderIds(policy)
      ensures policy.Device(audit[i].deviceId).Some?
      ensures header.envelopes[i] == EnvelopeFor(header, policy.Device(audit[i].deviceId).value, key, audit[i].seed)
    {
      AuditEntryMatches(pairs, policy, m, key, draws, header, i);
    }
    forall i, j | 0 <= i < j < |audit| && audit[i].Recipient? && audit[j].Recipient?
      ensures audit[i].deviceId != audit[j].deviceId
    {
      AuditNamesOnce(pairs, readers, m, key, draws, i, j);
    }
    forall id | id in ReaderIds(policy)
      ensures exists i :: 0 <= i < |audit| && audit[i].Recipient? && audit[i].deviceId == id
    {
      var device :| device in policy.body.devices && device.ActiveReader() && device.public.deviceId == id;
      var i := AuditCovers(pairs, readers, m, key, draws, device);
      assert audit[i] == pairs[i].entry;
    }
  }

  // ---------------------------------------------------------------------------
  // Sealing is complete

  /** The seal cannot fail for want of envelopes. */
  predicate Sealable(policy: PolicyState, draws: Draws) {
    var readers := |ActiveReaders(policy.body.devices)|;
    1 <= readers <= MAX_ENVELOPES && DistinctDraws(readers, draws)
  }

  lemma PaddedFits(n: nat)
    requires 1 <= n <= MAX_ENVELOPES
    ensures ValidEnvelopeCount(PaddedCount(n))
  {
    assert PowerOfTwo(2) && PowerOfTwo(4) && PowerOfTwo(8) && PowerOfTwo(16) && PowerOfTwo(32) && PowerOfTwo(64);
    assert PowerOfTwo(128) && PowerOfTwo(256) && PowerOfTwo(512) && PowerOfTwo(1024) && PowerOfTwo(2048);
    assert PowerOfTwo(MAX_ENVELOPES);
  }

  /** What the sealed bytes are, once every check of the seal has passed. */
  lemma SealSucceeds(signer: KeyFile, policy: PolicyState, key: Key, m: Manifest, draws: Draws)
    requires ValidateManifestPolicy(m, policy).Ok?
    requires m.authorization == Writer || m.authorization == PolicyTransition
    requires ValidateIntroducedPolicy(m, policy, m.authorization == PolicyTransition).Ok?
    requires ValidPackDelta(m)
    requires Sealable(policy, draws)
    ensures EnvelopePairs(policy, m, key, draws).Ok?
    ensures GoodPairs(EnvelopePairs(policy, m, key, draws).value, ActiveReaders(policy.body.devices), m, key, draws)
    ensures
      var pairs := EnvelopePairs(policy, m, key, draws).value;
      var content := ContentFor(signer, m, AuditOf(pairs));
      var header := SealedHeaderOf(m, key, EnvelopesOf(pairs), content, draws);
      && ValidatePublicHeader(header).Ok?
      && ValidLayout(header.envelopes)
      && SealManifest(signer, policy, key, m, draws) == Ok(Encode(Assemble(signer, m, key, header, content, draws)))
  {
    hide ValidLayout, GoodPairs, ActiveReaders, SortPairs, ValidPackDelta;
    PaddedFits(|ActiveReaders(policy.body.devices)|);
    PairsAreGood(policy, m, key, draws);
    var pairs := EnvelopePairs(policy, m, key, draws).value;
    GoodPairsLayout(pairs, ActiveReaders(policy.body.devices), m, key, draws);
    assert |pairs| == PaddedCount(|ActiveReaders(policy.body.devices)|) by {
      PairCount(pairs, ActiveReaders(policy.body.devices), m, key, draws);
    }
  }

  lemma PairCount(pairs: seq<Pair>, readers: seq<DeviceRecord>, m: Manifest, key: Key, draws: Draws)
    requires GoodPairs(pairs, readers, m, key, draws)
    ensures |pairs| == PaddedCount(|readers|)
  {
  }

  /** Opening what was sealed gives back the manifest that was sealed. */
  lemma SealedOpens(signer: KeyFile, m: Manifest, key: Key, envelopes: seq<Envelope>, audit: seq<AuditEntry>, draws: Draws)
    requires m.authorization == Writer || m.authorization == PolicyTransition
    requires m.introducedPolicy.Some? ==> m.introducedPolicy.value.Text?
    requires ValidPackDelta(m)
    requires (m.generation == 0) == m.predecessorKeyWrap.None?
    requires (m.generation == 0) == m.previous.None?
    requires
      var header := SealedHeaderOf(m, key, envelopes, ContentFor(signer, m, audit), draws);
      ValidatePublicHeader(header).Ok?
    ensures
      var content := ContentFor(signer, m, audit);
      var header := SealedHeaderOf(m, key, envelopes, content, draws);
      OpenManifest(Encode(Assemble(signer, m, key, header, content, draws)), key) ==
        Ok(Opened(header, m, signer.Id(), Encode(header), Encode(content),
                  Signed(signer.signing, SignedParts(Encode(header), Encode(content), header.bodyDigest))))
  {
    hide ValidPackDelta, ValidEnvelopeCount;
  }

  /** Verifying what was sealed succeeds for an authorized signer. */
  lemma SealedVerifies(
    signer: KeyFile, policy: PolicyState, parentPolicy: Option<PolicyState>, key: Key, m: Manifest, draws: Draws,
    unsealed: Opened, device: DeviceRecord)
    requires ValidateManifestPolicy(m, policy).Ok?
    requires ValidBody(policy.body)
    requires EnvelopePairs(policy, m, key, draws).Ok?
    requires
      var pairs := EnvelopePairs(policy, m, key, draws).value;
      var content := ContentFor(signer, m, AuditOf(pairs));
      var header := SealedHeaderOf(m, key, EnvelopesOf(pairs), content, draws);
      && GoodPairs(pairs, ActiveReaders(policy.body.devices), m, key, draws)
      && ValidatePublicHeader(header).Ok?
      && ValidLayout(header.envelopes)
      && unsealed == Opened(header, m, signer.Id(), Encode(header), Encode(content),
                            Signed(signer.signing, SignedParts(Encode(header), Encode(content), header.bodyDigest)))
    requires Authorizing(unsealed, policy, parentPolicy) == Ok(device) && device.public.signing == signer.signing
    ensures VerifyManifest(unsealed, policy, parentPolicy, key).Ok?
  {
    hide ValidBody, GoodPairs, ValidLayout, ValidAudit, Authorizing, EnvelopePairs, ActiveReaders, ValidEnvelopeCount;
    var pairs := EnvelopePairs(policy, m, key, draws).value;
    GoodPairsAudit(pairs, policy, m, key, draws, unsealed.header);
    assert unsealed.(claimedSigner := signer.Id()) == unsealed;
  }

  /** The link of a sealed successor opens to the parent's key. */
  predicate LinksTo(m: Manifest, key: Key, parent: Entry) {
    && m.predecessorKeyWrap.Some?
    && m.predecessorKeyWrap.value.Sealed?
    && m.predecessorKeyWrap.value ==
         WrapPredecessorKey(key, parent.key, m.root, m.generation, parent.id, m.predecessorKeyWrap.value.nonce)
  }

  lemma LinkOpens(m: Manifest, key: Key, parent: Entry)
    requires LinksTo(m, key, parent)
    requires m.previous == Some(parent.id)
    requires CheckedSuccessor(parent.header.generation) == Some(m.generation) && parent.header.root == m.root
    requires CommitTo(parent.key) == parent.header.commitment
    ensures UnwrapPredecessorKey(key, m, parent.header) == Ok(parent.key)
  {
  }

  /** The manifest passes every structural check of its place in the chain. */
  predicate WellPlaced(m: Manifest, previous: Option<Entry>, policy: PolicyState, key: Key) {
    if previous.Some? then
      && ValidateManifestSuccessor(m, previous.value.id, previous.value.manifest, policy).Ok?
      && LinksTo(m, key, previous.value)
      && Opens(previous.value)
    else
      ValidateManifestGenesis(m, policy).Ok?
  }

  lemma WellPlacedIsSealable(m: Manifest, previous: Option<Entry>, policy: PolicyState, key: Key)
    requires WellPlaced(m, previous, policy, key)
    ensures ValidateManifestPolicy(m, policy).Ok?
    ensures m.authorization == Writer || m.authorization == PolicyTransition
    ensures ValidateIntroducedPolicy(m, policy, m.authorization == PolicyTransition).Ok?
    ensures m.introducedPolicy.Some? ==> m.introducedPolicy.value.Text?
    ensures ValidPackDelta(m)
    ensures (m.generation == 0) == m.predecessorKeyWrap.None?
    ensures (m.generation == 0) == m.previous.None?
  {
    hide OpenManifest, ValidBody, LinksTo;
  }

  lemma WellPlacedLinks(m: Manifest, previous: Entry, policy: PolicyState, key: Key)
    requires WellPlaced(m, Some(previous), policy, key)
    ensures UnwrapPredecessorKey(key, m, previous.header) == Ok(previous.key)
  {
    hide OpenManifest, ValidBody, LinksTo, UnwrapPredecessorKey, Parse;
    LinkOpens(m, key, previous);
  }

  /** A well-placed manifest, sealed by an authorized device with distinct
      draws, is always stored, and its entry carries the manifest sealed. */
  lemma SealAndStoreSucceeds(
    previous: Option<Entry>, policy: PolicyState, parentPolicy: Option<PolicyState>, key: Key, m: Manifest,
    signer: KeyFile, draws: Draws)
    requires WellPlaced(m, previous, policy, key)
    requires ValidBody(policy.body)
    requires Sealable(policy, draws)
    requires m.authorization == Writer ==> policy.IsActiveWriter(signer.Id())
    requires m.authorization == PolicyTransition ==>
      (if parentPolicy.Some? then parentPolicy.value else policy).IsActiveAdmin(signer.Id())
    requires parentPolicy.Some? ==> ValidBody(parentPolicy.value.body)
    ensures
      var r := SealAndStore(previous, policy, parentPolicy, key, m, signer, draws);
      && r.Ok?
      && r.value.manifest == m && r.value.policy == policy && r.value.key == key && r.value.signer == signer.Id()
  {
    hide SealManifest, OpenManifest, VerifyManifest, UnwrapPredecessorKey, EnvelopePairs, ValidBody, GoodPairs, ValidLayout,
      Sealable, ValidPackDelta, ActiveReaders, LinksTo, Parse, ValidEnvelopeCount, ValidateIntroducedPolicy,
      ValidateManifestPolicy, ValidateManifestSuccessor, ValidateManifestGenesis, Opens, ValidatePublicHeader,
      Authorizing, FindDevice;
    WellPlacedIsSealable(m, previous, policy, key);
    SealSucceeds(signer, policy, key, m, draws);
    var pairs := EnvelopePairs(policy, m, key, draws).value;
    var audit := AuditOf(pairs);
    var content := ContentFor(signer, m, audit);
    var header := SealedHeaderOf(m, key, EnvelopesOf(pairs), content, draws);
    SealedOpens(signer, m, key, EnvelopesOf(pairs), audit, draws);
    var unsealed := OpenManifest(Encode(Assemble(signer, m, key, header, content, draws)), key).value;
    var device := AuthorizedSigner(unsealed, policy, parentPolicy, signer);
    SealedVerifies(signer, policy, parentPolicy, key, m, draws, unsealed, device);
    if previous.Some? {
      WellPlacedLinks(m, previous.value, policy, key);
    }
  }

  lemma AuthorizedSigner(unsealed: Opened, policy: PolicyState, parentPolicy: Option<PolicyState>, signer: KeyFile)
    returns (device: DeviceRecord)
    requires unsealed.claimedSigner == signer.Id()
    requires unsealed.manifest.authorization == Writer || unsealed.manifest.authorization == PolicyTransition
    requires unsealed.manifest.authorization == Writer ==> policy.IsActiveWriter(signer.Id())
    requires unsealed.manifest.authorization == PolicyTransition ==>
      (if parentPolicy.Some? then parentPolicy.value else policy).IsActiveAdmin(signer.Id())
    requires ValidBody(policy.body)
    requires parentPolicy.Some? ==> ValidBody(parentPolicy.value.body)
    ensures Authorizing(unsealed, policy, parentPolicy) == Ok(device) && device.public.signing == signer.signing
  {
    var authority := if unsealed.manifest.authorization == PolicyTransition && parentPolicy.Some?
                     then parentPolicy.value else policy;
    device := authority.Device(signer.Id()).value;
    assert device in authority.body.devices && ValidRecord(device);
  }

  // ---------------------------------------------------------------------------
  // Every active reader can open what was sealed

  lemma {:induction false} FirstOpeningFinds(
    envelopes: seq<Envelope>, recipient: nat, aad: EnvelopeAad, key: Key, i: nat)
    requires i < |envelopes| && OpenEnvelope(envelopes[i], recipient, aad) == Ok(key)
    ensures FirstOpening(envelopes, recipient, aad, CommitTo(key)) == Ok(key)
  {
    var first := OpenEnvelope(envelopes[0], recipient, aad);
    if first.Ok? && CommitTo(first.value) == CommitTo(key) {
    } else {
      FirstOpeningFinds(envelopes[1..], recipient, aad, key, i - 1);
    }
  }

  /** The audit of an accepted entry puts an envelope for every active reader
      in the header, so every active reader unwraps exactly this key. */
  lemma ReaderUnwraps(header: Header, audit: seq<AuditEntry>, policy: PolicyState, key: Key, reader: KeyFile)
    requires ValidAudit(header, audit, policy, key)
    requires ValidatePublicHeader(header).Ok?
    requires ValidBody(policy.body)
    requires header.commitment == CommitTo(key)
    requires reader.root == header.root && policy.IsActiveReader(reader.Id())
    ensures UnwrapGenerationKey(header, reader) == Ok(key)
  {
    hide ValidEnvelopeCount, FirstOpening;
    var device := policy.Device(reader.Id()).value;
    assert device in policy.body.devices && ValidRecord(device);
    assert reader.Id() in ReaderIds(policy);
    var i :| 0 <= i < |audit| && audit[i].Recipient? && audit[i].deviceId == reader.Id();
    FirstOpeningFinds(header.envelopes, reader.wrapping,
                      GenerationAad(header.root, header.generation, reader.Id(), header.commitment), key, i);
  }

  lemma EntryAudit(e: Entry, parent: Option<Entry>, root: Root)
    requires if parent.Some? then AuthenticSuccessor(e, parent.value) else AuthenticGenesis(e, root)
    ensures Opens(e)
    ensures ValidAudit(e.header, Unsealed(e).exactContent.value.audit, e.policy, e.key)
    ensures ValidatePublicHeader(e.header).Ok?
    ensures e.header.commitment == CommitTo(e.key) && e.header.root == e.manifest.root
  {
    hide OpenManifest, ValidAudit, Parse, RecordKept, UnwrapPredecessorKey, ValidLayout, Authorizing;
  }

  /** Any active reader of an accepted chain's head can open that chain whole,
      and gets back exactly these manifests. */
  lemma EveryReaderOpensTheChain(read: Reader, chain: seq<Entry>, reader: KeyFile)
    requires Authentic(chain, reader.root)
    requires Served(read, chain)
    requires chain[0].policy.IsActiveReader(reader.Id())
    ensures OpenChain(read, chain[0].id, reader) == Ok(chain)
  {
    hide AuthenticSuccessor, AuthenticGenesis, OpenChain, UnwrapGenerationKey, ValidAudit, ValidBody, FindDevice;
    PoliciesValid(chain, reader.root);
    ChainShape(chain, reader.root);
    EntryAudit(chain[0], if |chain| > 1 then Some(chain[1]) else None, reader.root);
    ReaderUnwraps(chain[0].header, Unsealed(chain[0]).exactContent.value.audit, chain[0].policy, chain[0].key, reader);
    AuthenticIsAccepted(read, chain, reader);
  }
}
