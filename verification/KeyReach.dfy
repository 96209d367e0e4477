/** Which generation keys a group of devices can derive from everything in
    storage: a symbolic deduction system over the sealed objects. */
module KeyReach {
  import opened Prelude
  import opened Policy
  import opened Manifests
  import opened Chain
  import opened Authenticity
  import opened Authorization
  import opened Sealing

  // ---------------------------------------------------------------------------
  // Terms and deduction

  /** What a byte string reveals. `Public` is anything without secret content. */
  datatype Term =
    | Public
    | KeyTerm(key: Key)
    | SeedTerm(seed: nat)
    | PrivateKey(wrapping: nat)
    | Derived(from: Term, kind: SubkeyKind)
    | Digest(of: Term)
    | Join(left: Term, right: Term)
    | SealedTerm(under: Term, plaintext: Term)
    | HpkeTerm(recipient: nat, ephemeral: Term, plaintext: Term)

  /** `t` follows from `known` in at most `n` steps. A sealed box opens with its
      key; an HPKE box opens with the recipient's private key or with the seed
      that produced it; every constructor can be applied. */
  ghost predicate Derives(n: nat, known: iset<Term>, t: Term)
    decreases n, 0
  {
    if n == 0 then t in known || t == Public
    else
      var m: nat := n - 1;
      || Derives(m, known, t)
      || (exists other :: Derives(m, known, Join(t, other)))
      || (exists other :: Derives(m, known, Join(other, t)))
      || (exists key :: Derives(m, known, SealedTerm(key, t)) && Derives(m, known, key))
      || (exists w, seed :: Decapsulable(m, known, w, seed, t))
      || Builds(m, known, t)
  }

  ghost predicate Decapsulable(n: nat, known: iset<Term>, w: nat, seed: Term, t: Term)
    decreases n, 1
  {
    && Derives(n, known, HpkeTerm(w, seed, t))
    && (Derives(n, known, PrivateKey(w)) || Derives(n, known, seed))
  }

  ghost predicate Builds(n: nat, known: iset<Term>, t: Term)
    decreases n, 1
  {
    match t
    case Derived(key, _) => Derives(n, known, key)
    case Digest(of) => Derives(n, known, of)
    case Join(left, right) => Derives(n, known, left) && Derives(n, known, right)
    case SealedTerm(key, plaintext) => Derives(n, known, key) && Derives(n, known, plaintext)
    case HpkeTerm(_, seed, plaintext) => Derives(n, known, seed) && Derives(n, known, plaintext)
    case _ => false
  }

  ghost predicate CanDerive(known: iset<Term>, t: Term) {
    exists n: nat :: Derives(n, known, t)
  }

  lemma {:induction false} DerivesMore(n: nat, m: nat, known: iset<Term>, t: Term)
    requires n <= m && Derives(n, known, t)
    ensures Derives(m, known, t)
    decreases m - n
  {
    if n < m {
      DerivesMore(n, m - 1, known, t);
    }
  }

  lemma Knows(known: iset<Term>, t: Term)
    requires t in known
    ensures CanDerive(known, t)
  {
    assert Derives(0, known, t);
  }

  lemma Splits(known: iset<Term>, left: Term, right: Term)
    requires CanDerive(known, Join(left, right))
    ensures CanDerive(known, left) && CanDerive(known, right)
  {
    var n: nat :| Derives(n, known, Join(left, right));
    assert Derives(n + 1, known, left) && Derives(n + 1, known, right);
  }

  lemma Expands(known: iset<Term>, key: Term, kind: SubkeyKind)
    requires CanDerive(known, key)
    ensures CanDerive(known, Derived(key, kind))
  {
    var n: nat :| Derives(n, known, key);
    assert Builds(n, known, Derived(key, kind));
    assert Derives(n + 1, known, Derived(key, kind));
  }

  lemma Unseals(known: iset<Term>, key: Term, plaintext: Term)
    requires CanDerive(known, SealedTerm(key, plaintext)) && CanDerive(known, key)
    ensures CanDerive(known, plaintext)
  {
    var n: nat :| Derives(n, known, SealedTerm(key, plaintext));
    var m: nat :| Derives(m, known, key);
    var most := if n < m then m else n;
    DerivesMore(n, most, known, SealedTerm(key, plaintext));
    DerivesMore(m, most, known, key);
    assert Derives(most + 1, known, plaintext);
  }

  lemma Decapsulates(known: iset<Term>, w: nat, seed: Term, plaintext: Term)
    requires CanDerive(known, HpkeTerm(w, seed, plaintext)) && CanDerive(known, PrivateKey(w))
    ensures CanDerive(known, plaintext)
  {
    var n: nat :| Derives(n, known, HpkeTerm(w, seed, plaintext));
    var m: nat :| Derives(m, known, PrivateKey(w));
    var most := if n < m then m else n;
    DerivesMore(n, most, known, HpkeTerm(w, seed, plaintext));
    DerivesMore(m, most, known, PrivateKey(w));
    assert Decapsulable(most, known, w, seed, plaintext);
    assert Derives(most + 1, known, plaintext);
  }

  // ---------------------------------------------------------------------------
  // Secrecy

  /** The keys and seeds to protect, and the private keys given away. */
  datatype Secrets = Secrets(keys: set<Key>, seeds: set<nat>, coalition: set<nat>)

  /** `t` gives away no protected secret to who cannot already open it. */
  predicate Safe(t: Term, s: Secrets) {
    match t
    case Public => true
    case KeyTerm(key) => key !in s.keys
    case SeedTerm(seed) => seed !in s.seeds
    case PrivateKey(w) => w in s.coalition
    case Derived(from, _) => Safe(from, s)
    case Digest(_) => true
    case Join(left, right) => Safe(left, s) && Safe(right, s)
    case SealedTerm(key, plaintext) => Safe(key, s) ==> Safe(plaintext, s)
    case HpkeTerm(w, seed, plaintext) => w in s.coalition || Safe(seed, s) ==> Safe(plaintext, s)
  }

  /** Deduction never leaves the safe terms. */
  lemma {:induction false} DeductionIsSafe(n: nat, known: iset<Term>, t: Term, s: Secrets)
    requires forall k <- known :: Safe(k, s)
    requires Derives(n, known, t)
    ensures Safe(t, s)
    decreases n, 0
  {
    if n > 0 {
      var m: nat := n - 1;
      if Derives(m, known, t) {
        DeductionIsSafe(m, known, t, s);
      } else if other :| Derives(m, known, Join(t, other)) {
        DeductionIsSafe(m, known, Join(t, other), s);
      } else if other :| Derives(m, known, Join(other, t)) {
        DeductionIsSafe(m, known, Join(other, t), s);
      } else if key :| Derives(m, known, SealedTerm(key, t)) && Derives(m, known, key) {
        DeductionIsSafe(m, known, SealedTerm(key, t), s);
        DeductionIsSafe(m, known, key, s);
      } else if w, seed :| Decapsulable(m, known, w, seed, t) {
        DeductionIsSafe(m, known, HpkeTerm(w, seed, t), s);
        if Derives(m, known, PrivateKey(w)) {
          DeductionIsSafe(m, known, PrivateKey(w), s);
        } else {
          DeductionIsSafe(m, known, seed, s);
        }
      } else {
        BuildIsSafe(m, known, t, s);
      }
    }
  }

  lemma {:induction false} BuildIsSafe(n: nat, known: iset<Term>, t: Term, s: Secrets)
    requires forall k <- known :: Safe(k, s)
    requires Builds(n, known, t)
    ensures Safe(t, s)
    decreases n, 1
  {
    match t
    case Derived(key, _) => DeductionIsSafe(n, known, key, s);
    case Digest(_) =>
    case Join(left, right) =>
      DeductionIsSafe(n, known, left, s);
      DeductionIsSafe(n, known, right, s);
    case SealedTerm(_, plaintext) => DeductionIsSafe(n, known, plaintext, s);
    case HpkeTerm(_, _, plaintext) => DeductionIsSafe(n, known, plaintext, s);
  }

  // ---------------------------------------------------------------------------
  // What a stored manifest reveals

  function EnvelopeTerm(envelope: Envelope): Term {
    match envelope.ciphertext
    case HpkeSealed(recipient, seed, _, key) => HpkeTerm(recipient, SeedTerm(seed), KeyTerm(key))
    case _ => Public
  }

  function EnvelopesTerm(envelopes: seq<Envelope>): Term {
    if envelopes == [] then Public else Join(EnvelopeTerm(envelopes[0]), EnvelopesTerm(envelopes[1..]))
  }

  function AuditTerm(audit: seq<AuditEntry>): Term {
    if audit == [] then Public
    else Join(if audit[0].Recipient? then SeedTerm(audit[0].seed) else Public, AuditTerm(audit[1..]))
  }

  function CommitmentTerm(commitment: Commitment): Term {
    if commitment.CommitTo? then Digest(KeyTerm(commitment.key)) else Public
  }

  function SubkeyTerm(key: Subkey): Term {
    Derived(KeyTerm(key.key), key.kind)
  }

  function LinkTerm(link: Option<Box<Key>>): Term {
    if link.Some? && link.value.Sealed? then SealedTerm(SubkeyTerm(link.value.key), KeyTerm(link.value.plaintext))
    else Public
  }

  function ContentTerm(content: Text<SealedContent>): Term {
    if content.Text? then AuditTerm(content.value.audit) else Public
  }

  function SealedHeaderTerm(box: Box<Text<SealedHeader>>): Term {
    if box.Sealed? && box.plaintext.Text? then SealedTerm(SubkeyTerm(box.key), ContentTerm(box.plaintext.value.content))
    else Public
  }

  function BodyTerm(box: Box<Text<Body>>): Term {
    if box.Sealed? && box.plaintext.Text? then
      SealedTerm(SubkeyTerm(box.key), LinkTerm(box.plaintext.value.predecessorKeyWrap))
    else Public
  }

  function HeaderTerm(header: Text<Header>): Term {
    if header.Text? then
      Join(CommitmentTerm(header.value.commitment),
           Join(EnvelopesTerm(header.value.envelopes),
                if header.value.contentDigest.ContentDigestOf? then Digest(ContentTerm(header.value.contentDigest.text))
                else Public))
    else Public
  }

  function BlobTerm(blob: Blob): Term {
    if blob.Text? then
      Join(HeaderTerm(blob.value.header), Join(SealedHeaderTerm(blob.value.sealedHeader), BodyTerm(blob.value.body)))
    else Public
  }

  /** A pack's ciphertext hides Git data under a subkey of its generation. */
  function PackTerm(key: Key): Term {
    SealedTerm(Derived(KeyTerm(key), PackKey), Public)
  }

  // ---------------------------------------------------------------------------
  // Everything this code ever sealed

  /** One manifest sealed by this code, on top of an earlier one or as genesis.
      Losers of a publication race stay in storage too, so this is a forest. */
  datatype Node = Node(
    parent: Option<nat>, signer: KeyFile, policy: PolicyState, key: Key, manifest: Manifest, draws: Draws, blob: Blob)

  predicate SealedNode(nodes: seq<Node>, i: nat)
    requires i < |nodes|
  {
    var node := nodes[i];
    && SealManifest(node.signer, node.policy, node.key, node.manifest, node.draws) == Ok(node.blob)
    && match node.parent
       case None => node.manifest.predecessorKeyWrap == None
       case Some(p) =>
         && p < i
         && node.manifest.predecessorKeyWrap.Some?
         && node.manifest.predecessorKeyWrap.value.Sealed?
         && node.manifest.predecessorKeyWrap.value.plaintext == nodes[p].key
         && node.manifest.predecessorKeyWrap.value.key ==
              Subkey(node.key, node.manifest.root, node.manifest.generation, PredecessorLinkKey, 0)
  }

  function ReaderCount(node: Node): nat {
    |ActiveReaders(node.policy.body.devices)|
  }

  /** The random draws are fresh: no generation key, padding key or reader seed
      of one seal coincides with another's. */
  ghost predicate FreshDraws(nodes: seq<Node>) {
    && (forall i, j :: 0 <= i < j < |nodes| ==> nodes[i].key != nodes[j].key)
    && (forall i, j, k :: 0 <= i < |nodes| && 0 <= j < |nodes| && 0 <= k ==>
          nodes[i].draws.dummy(k).key != nodes[j].key)
    && (forall i, j, k, l :: 0 <= i < j < |nodes| && 0 <= k < ReaderCount(nodes[i]) && 0 <= l < ReaderCount(nodes[j]) ==>
          nodes[i].draws.seed(k) != nodes[j].draws.seed(l))
  }

  ghost predicate SealedForest(nodes: seq<Node>) {
    && (forall i :: 0 <= i < |nodes| ==> SealedNode(nodes, i))
    && FreshDraws(nodes)
  }

  ghost function Storage(nodes: seq<Node>, coalition: set<nat>): iset<Term> {
    (iset i | 0 <= i < |nodes| :: BlobTerm(nodes[i].blob))
    + (iset i | 0 <= i < |nodes| :: PackTerm(nodes[i].key))
    + (iset w | w in coalition :: PrivateKey(w))
  }

  /** The node's policy lists an active reader whose private key is known. */
  predicate Addressed(node: Node, coalition: set<nat>) {
    exists d <- node.policy.body.devices :: d.ActiveReader() && d.public.wrapping in coalition
  }

  /** `i` is `j` or an ancestor of `j`. */
  predicate Ancestor(nodes: seq<Node>, i: nat, j: nat)
    requires i < |nodes| && j < |nodes|
  {
    i == j || (nodes[j].parent.Some? && nodes[j].parent.value < j && Ancestor(nodes, i, nodes[j].parent.value))
  }

  predicate Readable(nodes: seq<Node>, coalition: set<nat>, i: nat)
    requires i < |nodes|
  {
    exists j :: 0 <= j < |nodes| && Ancestor(nodes, i, j) && Addressed(nodes[j], coalition)
  }

  // ---------------------------------------------------------------------------
  // No further than the last generation addressed

  /** Where one envelope of a sealed list came from. */
  lemma PairOrigin(node: Node, pair: Pair)
    requires EnvelopePairs(node.policy, node.manifest, node.key, node.draws).Ok?
    requires pair in EnvelopePairs(node.policy, node.manifest, node.key, node.draws).value
    ensures
      || (exists k :: 0 <= k < ReaderCount(node) && pair ==
            ReaderPair(node.manifest, node.key, ActiveReaders(node.policy.body.devices)[k], node.draws.seed(k)))
      || (exists k :: 0 <= k && pair == DummyPair(node.draws.dummy(k)))
  {
    hide SortPairs, ActiveReaders, PaddedCount, ReaderPair, DummyPair;
    var readers := ActiveReaders(node.policy.body.devices);
    var unsorted := UnsortedPairs(readers, PaddedCount(|readers|), node.manifest, node.key, node.draws);
    InMultiset(SortPairs(unsorted), unsorted, pair);
    var i :| 0 <= i < |unsorted| && unsorted[i] == pair;
    if i >= |readers| {
      assert pair == DummyPair(node.draws.dummy(i - |readers|));
    }
  }

  lemma {:induction false} EnvelopesSafe(envelopes: seq<Envelope>, s: Secrets)
    requires forall e <- envelopes :: Safe(EnvelopeTerm(e), s)
    ensures Safe(EnvelopesTerm(envelopes), s)
  {
    if envelopes != [] {
      EnvelopesSafe(envelopes[1..], s);
    }
  }

  lemma {:induction false} AuditSafe(audit: seq<AuditEntry>, s: Secrets)
    requires forall entry <- audit :: entry.Recipient? ==> entry.seed !in s.seeds
    ensures Safe(AuditTerm(audit), s)
  {
    if audit != [] {
      AuditSafe(audit[1..], s);
    }
  }

  /** The keys and reader seeds of every node the coalition has no path to. */
  ghost function Protected(nodes: seq<Node>, coalition: set<nat>): Secrets {
    Secrets(set i | 0 <= i < |nodes| && !Readable(nodes, coalition, i) :: nodes[i].key,
            set i, k | 0 <= i < |nodes| && !Readable(nodes, coalition, i) && 0 <= k < ReaderCount(nodes[i])
              :: nodes[i].draws.seed(k),
            coalition)
  }

  lemma ReadableKey(nodes: seq<Node>, coalition: set<nat>, i: nat)
    requires SealedForest(nodes) && i < |nodes|
    ensures nodes[i].key in Protected(nodes, coalition).keys <==> !Readable(nodes, coalition, i)
  {
    hide SealedNode, Readable;
    assert forall j :: 0 <= j < |nodes| && nodes[j].key == nodes[i].key ==> j == i;
  }

  /** What sealing put into a node's stored bytes. */
  lemma NodeParts(nodes: seq<Node>, i: nat)
    requires i < |nodes| && SealedNode(nodes, i)
    ensures EnvelopePairs(nodes[i].policy, nodes[i].manifest, nodes[i].key, nodes[i].draws).Ok?
    ensures
      var node := nodes[i];
      var pairs := EnvelopePairs(node.policy, node.manifest, node.key, node.draws).value;
      && node.blob.Text?
      && HeaderTerm(node.blob.value.header) ==
           Join(Digest(KeyTerm(node.key)), Join(EnvelopesTerm(EnvelopesOf(pairs)), Digest(AuditTerm(AuditOf(pairs)))))
      && SealedHeaderTerm(node.blob.value.sealedHeader) ==
           SealedTerm(Derived(KeyTerm(node.key), SealedHeaderKey), AuditTerm(AuditOf(pairs)))
      && BodyTerm(node.blob.value.body) ==
           SealedTerm(Derived(KeyTerm(node.key), ManifestBodyKey), LinkTerm(node.manifest.predecessorKeyWrap))
      && LinkTerm(node.manifest.predecessorKeyWrap) ==
           if node.parent.None? then Public
           else SealedTerm(Derived(KeyTerm(node.key), PredecessorLinkKey), KeyTerm(nodes[node.parent.value].key))
    ensures nodes[i].parent.Some? ==> nodes[i].parent.value < i
  {
    hide EnvelopePairs, ValidLayout, ValidPackDelta, ValidateIntroducedPolicy, ValidEnvelopeCount, EnvelopesTerm, AuditTerm;
  }

  lemma EnvelopeIsSafe(nodes: seq<Node>, coalition: set<nat>, i: nat, pair: Pair)
    requires SealedForest(nodes) && i < |nodes|
    requires EnvelopePairs(nodes[i].policy, nodes[i].manifest, nodes[i].key, nodes[i].draws).Ok?
    requires pair in EnvelopePairs(nodes[i].policy, nodes[i].manifest, nodes[i].key, nodes[i].draws).value
    ensures Safe(EnvelopeTerm(pair.envelope), Protected(nodes, coalition))
  {
    hide SealedNode, EnvelopePairs, ActiveReaders, Readable, Addressed;
    var node := nodes[i];
    ReadableKey(nodes, coalition, i);
    AddressedIsReadable(nodes, coalition, i);
    PairOrigin(node, pair);
    var readers := ActiveReaders(node.policy.body.devices);
    if pair.entry.Recipient? {
      var k :| 0 <= k < |readers| && pair == ReaderPair(node.manifest, node.key, readers[k], node.draws.seed(k));
      assert readers[k] in readers;
      ReaderIsAddressed(node, readers[k], coalition);
    } else {
      var k :| 0 <= k && pair == DummyPair(node.draws.dummy(k));
      assert forall j :: 0 <= j < |nodes| ==> node.draws.dummy(k).key != nodes[j].key;
    }
  }

  lemma ReaderIsAddressed(node: Node, reader: DeviceRecord, coalition: set<nat>)
    requires reader in node.policy.body.devices && reader.ActiveReader()
    ensures reader.public.wrapping in coalition ==> Addressed(node, coalition)
  {
  }

  lemma AddressedIsReadable(nodes: seq<Node>, coalition: set<nat>, i: nat)
    requires i < |nodes|
    ensures Addressed(nodes[i], coalition) ==> Readable(nodes, coalition, i)
  {
    assert Ancestor(nodes, i, i);
  }

  lemma AuditIsSafe(nodes: seq<Node>, coalition: set<nat>, i: nat, pair: Pair)
    requires SealedForest(nodes) && i < |nodes|
    requires Readable(nodes, coalition, i)
    requires EnvelopePairs(nodes[i].policy, nodes[i].manifest, nodes[i].key, nodes[i].draws).Ok?
    requires pair in EnvelopePairs(nodes[i].policy, nodes[i].manifest, nodes[i].key, nodes[i].draws).value
    ensures pair.entry.Recipient? ==> pair.entry.seed !in Protected(nodes, coalition).seeds
  {
    hide SealedNode, EnvelopePairs, ActiveReaders, Readable;
    PairOrigin(nodes[i], pair);
  }

  lemma ParentIsReadable(nodes: seq<Node>, coalition: set<nat>, i: nat)
    requires i < |nodes| && SealedNode(nodes, i) && nodes[i].parent.Some?
    requires Readable(nodes, coalition, i)
    ensures Readable(nodes, coalition, nodes[i].parent.value)
  {
    hide SealManifest, Addressed;
    var j :| 0 <= j < |nodes| && Ancestor(nodes, i, j) && Addressed(nodes[j], coalition);
    AncestorOfParent(nodes, i, j);
  }

  lemma {:induction false} AncestorOfParent(nodes: seq<Node>, i: nat, j: nat)
    requires i < |nodes| && j < |nodes| && nodes[i].parent.Some? && nodes[i].parent.value < i
    requires Ancestor(nodes, i, j)
    ensures Ancestor(nodes, nodes[i].parent.value, j)
    decreases j
  {
    if i != j {
      AncestorOfParent(nodes, i, nodes[j].parent.value);
    }
  }

  lemma BlobIsSafe(nodes: seq<Node>, coalition: set<nat>, i: nat)
    requires SealedForest(nodes) && i < |nodes|
    ensures Safe(BlobTerm(nodes[i].blob), Protected(nodes, coalition))
  {
    hide SealedNode, EnvelopePairs, Readable, Protected, EnvelopesTerm, AuditTerm, EnvelopeTerm, FreshDraws;
    var node := nodes[i];
    var s := Protected(nodes, coalition);
    NodeParts(nodes, i);
    var pairs := EnvelopePairs(node.policy, node.manifest, node.key, node.draws).value;
    ReadableKey(nodes, coalition, i);
    forall e | e in EnvelopesOf(pairs)
      ensures Safe(EnvelopeTerm(e), s)
    {
      var k :| 0 <= k < |pairs| && EnvelopesOf(pairs)[k] == e;
      EnvelopeIsSafe(nodes, coalition, i, pairs[k]);
    }
    EnvelopesSafe(EnvelopesOf(pairs), s);
    if Readable(nodes, coalition, i) {
      forall entry | entry in AuditOf(pairs)
        ensures entry.Recipient? ==> entry.seed !in s.seeds
      {
        var k :| 0 <= k < |pairs| && AuditOf(pairs)[k] == entry;
        AuditIsSafe(nodes, coalition, i, pairs[k]);
      }
      AuditSafe(AuditOf(pairs), s);
      if node.parent.Some? {
        ParentIsReadable(nodes, coalition, i);
        ReadableKey(nodes, coalition, node.parent.value);
      }
      assert Safe(LinkTerm(node.manifest.predecessorKeyWrap), s);
    }
    assert Safe(KeyTerm(node.key), s) <==> Readable(nodes, coalition, i);
    assert Safe(Join(EnvelopesTerm(EnvelopesOf(pairs)), Digest(AuditTerm(AuditOf(pairs)))), s);
    assert Safe(HeaderTerm(node.blob.value.header), s);
    assert Safe(SealedHeaderTerm(node.blob.value.sealedHeader), s);
    assert Safe(BodyTerm(node.blob.value.body), s);
  }

  lemma ProtectedCoalition(nodes: seq<Node>, coalition: set<nat>)
    ensures Protected(nodes, coalition).coalition == coalition
  {
  }

  lemma Confined(nodes: seq<Node>, coalition: set<nat>, i: nat)
    requires SealedForest(nodes) && i < |nodes|
    requires CanDerive(Storage(nodes, coalition), KeyTerm(nodes[i].key))
    ensures Readable(nodes, coalition, i)
  {
    hide SealedNode, Readable, Protected, BlobTerm, FreshDraws;
    var s := Protected(nodes, coalition);
    ProtectedCoalition(nodes, coalition);
    var known := Storage(nodes, coalition);
    forall t | t in known
      ensures Safe(t, s)
    {
      if j :| 0 <= j < |nodes| && t == BlobTerm(nodes[j].blob) {
        BlobIsSafe(nodes, coalition, j);
      }
    }
    var n: nat :| Derives(n, known, KeyTerm(nodes[i].key));
    DeductionIsSafe(n, known, KeyTerm(nodes[i].key), s);
    ReadableKey(nodes, coalition, i);
  }

  // ---------------------------------------------------------------------------
  // Every generation up to it

  lemma {:induction false} EnvelopeKnown(known: iset<Term>, envelopes: seq<Envelope>, k: nat)
    requires CanDerive(known, EnvelopesTerm(envelopes)) && k < |envelopes|
    ensures CanDerive(known, EnvelopeTerm(envelopes[k]))
  {
    hide CanDerive;
    Splits(known, EnvelopeTerm(envelopes[0]), EnvelopesTerm(envelopes[1..]));
    if k > 0 {
      EnvelopeKnown(known, envelopes[1..], k - 1);
    }
  }

  lemma BlobKnown(nodes: seq<Node>, coalition: set<nat>, i: nat)
    requires i < |nodes| && SealedNode(nodes, i)
    ensures
      var node := nodes[i];
      var known := Storage(nodes, coalition);
      && CanDerive(known, HeaderTerm(node.blob.value.header))
      && CanDerive(known, BodyTerm(node.blob.value.body))
  {
    hide CanDerive, HeaderTerm, SealedHeaderTerm, BodyTerm, SealedNode;
    NodeParts(nodes, i);
    var known := Storage(nodes, coalition);
    var blob := nodes[i].blob.value;
    Knows(known, BlobTerm(nodes[i].blob));
    Splits(known, HeaderTerm(blob.header), Join(SealedHeaderTerm(blob.sealedHeader), BodyTerm(blob.body)));
    Splits(known, SealedHeaderTerm(blob.sealedHeader), BodyTerm(blob.body));
  }

  /** An addressed reader opens its own envelope. */
  lemma AddressedKnows(nodes: seq<Node>, coalition: set<nat>, j: nat)
    requires j < |nodes| && SealedNode(nodes, j) && Addressed(nodes[j], coalition)
    ensures CanDerive(Storage(nodes, coalition), KeyTerm(nodes[j].key))
  {
    hide CanDerive, SealedNode, EnvelopesTerm, AuditTerm, SortPairs, ActiveReaders, PaddedCount;
    var node := nodes[j];
    var known := Storage(nodes, coalition);
    NodeParts(nodes, j);
    BlobKnown(nodes, coalition, j);
    var pairs := EnvelopePairs(node.policy, node.manifest, node.key, node.draws).value;
    Splits(known, Digest(KeyTerm(node.key)), Join(EnvelopesTerm(EnvelopesOf(pairs)), Digest(AuditTerm(AuditOf(pairs)))));
    Splits(known, EnvelopesTerm(EnvelopesOf(pairs)), Digest(AuditTerm(AuditOf(pairs))));
    var reader :| reader in node.policy.body.devices && reader.ActiveReader() && reader.public.wrapping in coalition;
    var position, seed := ReaderEnvelope(node, reader);
    EnvelopeKnown(known, EnvelopesOf(pairs), position);
    Knows(known, PrivateKey(reader.public.wrapping));
    Decapsulates(known, reader.public.wrapping, SeedTerm(seed), KeyTerm(node.key));
  }

  lemma ReaderEnvelope(node: Node, reader: DeviceRecord) returns (position: nat, seed: nat)
    requires EnvelopePairs(node.policy, node.manifest, node.key, node.draws).Ok?
    requires reader in node.policy.body.devices && reader.ActiveReader()
    ensures
      var pairs := EnvelopePairs(node.policy, node.manifest, node.key, node.draws).value;
      && position < |pairs|
      && EnvelopeTerm(EnvelopesOf(pairs)[position]) ==
           HpkeTerm(reader.public.wrapping, SeedTerm(seed), KeyTerm(node.key))
  {
    hide SortPairs, ActiveReaders, PaddedCount;
    var readers := ActiveReaders(node.policy.body.devices);
    var pairs := EnvelopePairs(node.policy, node.manifest, node.key, node.draws).value;
    var unsorted := UnsortedPairs(readers, PaddedCount(|readers|), node.manifest, node.key, node.draws);
    assert reader in readers;
    var k :| 0 <= k < |readers| && readers[k] == reader;
    seed := node.draws.seed(k);
    assert unsorted[k] in unsorted;
    InMultiset(pairs, unsorted, unsorted[k]);
    position :| 0 <= position < |pairs| && pairs[position] == unsorted[k];
  }

  /** A generation key opens its parent's. */
  lemma ParentKnown(nodes: seq<Node>, coalition: set<nat>, j: nat)
    requires j < |nodes| && SealedNode(nodes, j) && nodes[j].parent.Some?
    requires CanDerive(Storage(nodes, coalition), KeyTerm(nodes[j].key))
    ensures CanDerive(Storage(nodes, coalition), KeyTerm(nodes[nodes[j].parent.value].key))
  {
    hide CanDerive, EnvelopesTerm, AuditTerm, EnvelopePairs, SealManifest, Storage;
    var known := Storage(nodes, coalition);
    var node := nodes[j];
    NodeParts(nodes, j);
    BlobKnown(nodes, coalition, j);
    var key := KeyTerm(node.key);
    var parentKey := KeyTerm(nodes[node.parent.value].key);
    Expands(known, key, ManifestBodyKey);
    Unseals(known, Derived(key, ManifestBodyKey), LinkTerm(node.manifest.predecessorKeyWrap));
    Expands(known, key, PredecessorLinkKey);
    Unseals(known, Derived(key, PredecessorLinkKey), parentKey);
  }

  lemma {:induction false} AncestorsKnown(nodes: seq<Node>, coalition: set<nat>, i: nat, j: nat)
    requires i < |nodes| && j < |nodes|
    requires forall k :: 0 <= k < |nodes| ==> SealedNode(nodes, k)
    requires Ancestor(nodes, i, j)
    requires CanDerive(Storage(nodes, coalition), KeyTerm(nodes[j].key))
    ensures CanDerive(Storage(nodes, coalition), KeyTerm(nodes[i].key))
    decreases j
  {
    hide CanDerive, SealedNode, Storage;
    if i != j {
      ParentKnown(nodes, coalition, j);
      AncestorsKnown(nodes, coalition, i, nodes[j].parent.value);
    }
  }

  /** Over everything this code ever sealed, a coalition of devices can derive a
      generation key if and only if that generation, or one built on it, was
      addressed to one of them. */
  lemma KeyReach(nodes: seq<Node>, coalition: set<nat>, i: nat)
    requires SealedForest(nodes) && i < |nodes|
    ensures CanDerive(Storage(nodes, coalition), KeyTerm(nodes[i].key)) <==> Readable(nodes, coalition, i)
  {
    hide CanDerive, SealedNode, Storage, FreshDraws;
    if Readable(nodes, coalition, i) {
      var j :| 0 <= j < |nodes| && Ancestor(nodes, i, j) && Addressed(nodes[j], coalition);
      AddressedKnows(nodes, coalition, j);
      AncestorsKnown(nodes, coalition, i, j);
    }
    if CanDerive(Storage(nodes, coalition), KeyTerm(nodes[i].key)) {
      Confined(nodes, coalition, i);
    }
  }

  // ---------------------------------------------------------------------------
  // Along one chain

  predicate IsChain(nodes: seq<Node>) {
    forall i :: 0 <= i < |nodes| ==> nodes[i].parent == if i == 0 then None else Some(i - 1)
  }

  lemma {:induction false} ChainAncestor(nodes: seq<Node>, i: nat, j: nat)
    requires IsChain(nodes) && i < |nodes| && j < |nodes|
    ensures Ancestor(nodes, i, j) <==> i <= j
    decreases j
  {
    if i != j && j > 0 {
      ChainAncestor(nodes, i, j - 1);
    }
  }

  /** Along a chain, a device derives exactly the keys from generation zero up
      to the last generation whose policy lists it as an active reader, and
      none at all if no policy does. */
  lemma KeyReachAlongChain(nodes: seq<Node>, w: nat, g: nat)
    requires SealedForest(nodes) && IsChain(nodes) && g < |nodes|
    ensures CanDerive(Storage(nodes, {w}), KeyTerm(nodes[g].key)) <==>
      exists last :: g <= last < |nodes| && Addressed(nodes[last], {w})
  {
    hide CanDerive, SealedForest, Storage, Addressed, Ancestor;
    KeyReach(nodes, {w}, g);
    forall j | 0 <= j < |nodes|
      ensures Ancestor(nodes, g, j) <==> g <= j
    {
      ChainAncestor(nodes, g, j);
    }
  }

  /** The nodes, genesis first, are the entries of a chain, head first. */
  ghost predicate SealedAlong(nodes: seq<Node>, chain: seq<Entry>) {
    |nodes| == |chain| && forall i :: 0 <= i < |nodes| ==>
      nodes[i].policy == chain[|chain| - 1 - i].policy && nodes[i].key == chain[|chain| - 1 - i].key
  }

  /** A record that enrolls the wrapping key anew, under an ID that the policy of
      the revoking generation does not list. */
  predicate Reenrolled(nodes: seq<Node>, w: nat, from: nat, last: nat)
    requires from < |nodes| && last < |nodes|
  {
    exists d <- nodes[last].policy.body.devices ::
      d.ActiveReader() && d.public.wrapping == w && nodes[from].policy.Device(d.public.deviceId).None?
  }

  /** From the generation whose policy revokes every record with a wrapping key,
      the holder of that key derives no generation key, whatever it held before,
      unless an administrator later enrolls the same key as a new device; and
      then exactly the keys up to the last generation that lists it again. */
  lemma RevokedReachesNothingLater(
    nodes: seq<Node>, chain: seq<Entry>, root: Root, w: nat, from: nat, g: nat)
    requires SealedForest(nodes) && IsChain(nodes) && Authentic(chain, root) && SealedAlong(nodes, chain)
    requires from <= g < |nodes|
    requires forall d <- nodes[from].policy.body.devices :: d.public.wrapping == w ==> d.revokedAt.Some?
    ensures CanDerive(Storage(nodes, {w}), KeyTerm(nodes[g].key)) <==>
      exists last :: g <= last < |nodes| && Reenrolled(nodes, w, from, last)
  {
    hide CanDerive, SealedForest, Storage, IsChain, Authentic, FindDevice;
    KeyReachAlongChain(nodes, w, g);
    forall last | g <= last < |nodes|
      ensures Addressed(nodes[last], {w}) <==> Reenrolled(nodes, w, from, last)
    {
      OnlyNewRecordsAddress(nodes, chain, root, w, from, last);
    }
  }

  lemma OnlyNewRecordsAddress(nodes: seq<Node>, chain: seq<Entry>, root: Root, w: nat, from: nat, last: nat)
    requires Authentic(chain, root) && SealedAlong(nodes, chain) && from <= last < |nodes|
    requires forall d <- nodes[from].policy.body.devices :: d.public.wrapping == w ==> d.revokedAt.Some?
    ensures Addressed(nodes[last], {w}) <==> Reenrolled(nodes, w, from, last)
  {
    hide Authentic, FindDevice;
    var newer, older := |chain| - 1 - last, |chain| - 1 - from;
    PoliciesValid(chain, root);
    forall d | d in nodes[last].policy.body.devices && d.ActiveReader() && d.public.wrapping == w
      ensures nodes[from].policy.Device(d.public.deviceId).None?
    {
      var id := d.public.deviceId;
      if nodes[from].policy.Device(id).Some? {
        RegistryIsPermanent(chain, root, newer, older, id);
        DeviceIsUnique(chain[newer].policy.body.devices, d);
      }
    }
  }
}
