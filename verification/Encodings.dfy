/** The byte encodings behind every associated data, signed message and subkey:
    the encoders at the end of src/manifest.rs, `pack_stream_aad`,
    `derive_subkey` and `sign_domain` of src/crypto.rs. The other modules use
    values of free datatypes in their place; this module shows why they may. */
module Encodings {
  import opened Prelude

  type byte = b: int | 0 <= b < 256
  type Bytes = seq<byte>

  // ---------------------------------------------------------------------------
  // Primitives

  function Pow256(width: nat): (p: nat)
    ensures p > 0
  {
    if width == 0 then 1 else 256 * Pow256(width - 1)
  }

  /** `to_le_bytes` of a value cast to `width` bytes; higher digits are lost. */
  function LittleEndian(n: nat, width: nat): (r: Bytes)
    ensures |r| == width
    decreases width
  {
    if width == 0 then [] else [n % 256] + LittleEndian(n / 256, width - 1)
  }

  function FromLittleEndian(bytes: Bytes): nat {
    if bytes == [] then 0 else bytes[0] + 256 * FromLittleEndian(bytes[1..])
  }

  lemma {:induction false} LittleEndianRoundTrip(n: nat, width: nat)
    requires n < Pow256(width)
    ensures FromLittleEndian(LittleEndian(n, width)) == n
    decreases width
  {
    if width > 0 {
      assert n / 256 < Pow256(width - 1);
      LittleEndianRoundTrip(n / 256, width - 1);
    }
  }

  const WORD: nat := 8
  const LENGTH: nat := 4
  const MAX_FIELD: nat := 0x1_0000_0000

  lemma Widths()
    ensures Pow256(LENGTH) == MAX_FIELD
    ensures Pow256(WORD) == 0x1_0000_0000_0000_0000
  {
    assert Pow256(2) == 65536;
    assert Pow256(4) == 65536 * 65536;
    assert Pow256(6) == 65536 * 65536 * 65536;
  }

  /** `push_field`: the length as a `u32`, then the bytes. */
  function Field(value: Bytes): Bytes {
    LittleEndian(|value|, LENGTH) + value
  }

  lemma SplitEqual(a: Bytes, x: Bytes, b: Bytes, y: Bytes)
    requires a + x == b + y && |a| == |b|
    ensures a == b && x == y
  {
    assert a == (a + x)[..|a|] && b == (b + y)[..|b|];
    assert x == (a + x)[|a|..] && y == (b + y)[|b|..];
  }

  lemma WordIsReadable(m: u64, x: Bytes, n: u64, y: Bytes)
    requires LittleEndian(m, WORD) + x == LittleEndian(n, WORD) + y
    ensures m == n && x == y
  {
    Widths();
    SplitEqual(LittleEndian(m, WORD), x, LittleEndian(n, WORD), y);
    LittleEndianRoundTrip(m, WORD);
    LittleEndianRoundTrip(n, WORD);
  }

  lemma FieldIsReadable(a: Bytes, x: Bytes, b: Bytes, y: Bytes)
    requires |a| < MAX_FIELD && |b| < MAX_FIELD
    requires Field(a) + x == Field(b) + y
    ensures a == b && x == y
  {
    Widths();
    assert Field(a) + x == LittleEndian(|a|, LENGTH) + (a + x);
    assert Field(b) + y == LittleEndian(|b|, LENGTH) + (b + y);
    SplitEqual(LittleEndian(|a|, LENGTH), a + x, LittleEndian(|b|, LENGTH), b + y);
    LittleEndianRoundTrip(|a|, LENGTH);
    LittleEndianRoundTrip(|b|, LENGTH);
    SplitEqual(a, x, b, y);
  }

  // ---------------------------------------------------------------------------
  // Associated data

  function Ascii(text: string): (r: Bytes)
    ensures |r| == |text|
  {
    seq(|text|, i requires 0 <= i < |text| => text[i] as int % 256)
  }

  /** `domain!`: `git-remote-e2ee <purpose> v6` and a zero byte. */
  function Domain(purpose: string): Bytes {
    Ascii("git-remote-e2ee ") + Ascii(purpose) + Ascii(" v6\0")
  }

  /** Everything a ciphertext of this format is bound to. The header context is
      the exact public header text, which is a JSON object. */
  datatype Context =
    | PackContext(root: Bytes, generation: u64, ordinal: u64)
    | EnvelopeContext(root: Bytes, generation: u64, recipient: Bytes, commitment: Bytes)
    | BodyContext(root: Bytes, generation: u64)
    | LinkContext(root: Bytes, generation: u64, previous: Bytes)
    | StreamContext(base: Bytes, header: Bytes)
    | HeaderContext(text: Bytes)

  predicate WellSized(c: Context) {
    match c
    case PackContext(root, _, _) => |root| < MAX_FIELD
    case EnvelopeContext(root, _, recipient, commitment) =>
      |root| < MAX_FIELD && |recipient| < MAX_FIELD && |commitment| < MAX_FIELD
    case BodyContext(root, _) => |root| < MAX_FIELD
    case LinkContext(root, _, previous) => |root| < MAX_FIELD && |previous| < MAX_FIELD
    case StreamContext(base, header) => |base| < MAX_FIELD && |header| < MAX_FIELD
    case HeaderContext(text) => text != [] && text[0] == '{' as int
  }

  function Purpose(c: Context): string {
    match c
    case PackContext(_, _, _) => "pack"
    case EnvelopeContext(_, _, _, _) => "generation envelope"
    case BodyContext(_, _) => "manifest body"
    case LinkContext(_, _, _) => "predecessor link"
    case StreamContext(_, _) => "pack stream"
    case HeaderContext(_) => ""
  }

  /** What follows the domain tag. */
  function Payload(c: Context): Bytes {
    match c
    case PackContext(root, generation, ordinal) =>
      Field(root) + (LittleEndian(generation, WORD) + (LittleEndian(ordinal, WORD) + []))
    case EnvelopeContext(root, generation, recipient, commitment) =>
      Field(root) + (LittleEndian(FORMAT_VERSION, LENGTH)
                     + (LittleEndian(generation, WORD) + (Field(commitment) + (Field(recipient) + []))))
    case BodyContext(root, generation) => Field(root) + (LittleEndian(generation, WORD) + [])
    case LinkContext(root, generation, previous) =>
      Field(root) + (LittleEndian(generation, WORD) + (Field(previous) + []))
    case StreamContext(base, header) => Field(base) + (Field(header) + [])
    case HeaderContext(text) => text
  }

  /** `pack_aad`, `generation_key_aad`, `manifest_body_aad`,
      `predecessor_link_aad`, `pack_stream_aad` and the bare header text. */
  function Aad(c: Context): Bytes {
    if c.HeaderContext? then c.text else Domain(Purpose(c)) + Payload(c)
  }

  lemma DomainBytes(purpose: string, rest: Bytes)
    ensures |Domain(purpose)| == 16 + |purpose| + 4
    ensures (Domain(purpose) + rest)[0] == 'g' as int
    ensures forall i :: 0 <= i < |purpose| ==> (Domain(purpose) + rest)[16 + i] == purpose[i] as int % 256
    ensures (Domain(purpose) + rest)[16 + |purpose|] == ' ' as int
    ensures (Domain(purpose) + rest)[16 + |purpose| + 1] == 'v' as int
  {
  }

  /** Two tagged encodings that agree carry the same purpose. */
  lemma PurposesApart(c: Context, d: Context)
    requires !c.HeaderContext? && !d.HeaderContext?
    requires Aad(c) == Aad(d)
    ensures Purpose(c) == Purpose(d)
  {
    hide Domain, Payload;
    DomainBytes(Purpose(c), Payload(c));
    DomainBytes(Purpose(d), Payload(d));
    assert Aad(c)[16] == Aad(d)[16] && Aad(c)[17] == Aad(d)[17] && Aad(c)[21] == Aad(d)[21];
    assert Aad(c)[16] == Purpose(c)[0] as int % 256 && Aad(d)[16] == Purpose(d)[0] as int % 256;
    assert Aad(c)[17] == Purpose(c)[1] as int % 256 && Aad(d)[17] == Purpose(d)[1] as int % 256;
    assert c.StreamContext? ==> Purpose(c)[5] == 's' && Aad(c)[16 + 5] == 's' as int;
    assert d.StreamContext? ==> Purpose(d)[5] == 's' && Aad(d)[16 + 5] == 's' as int;
  }

  lemma SamePurpose(c: Context, d: Context)
    requires Purpose(c) == Purpose(d)
    ensures c.PackContext? == d.PackContext? && c.EnvelopeContext? == d.EnvelopeContext?
    ensures c.BodyContext? == d.BodyContext? && c.LinkContext? == d.LinkContext?
    ensures c.StreamContext? == d.StreamContext?
  {
    assert Purpose(c) != "" ==> Purpose(c)[0] == Purpose(d)[0];
    assert |Purpose(c)| == |Purpose(d)|;
  }

  lemma PayloadInjective(c: Context, d: Context)
    requires WellSized(c) && WellSized(d)
    requires !c.HeaderContext? && Purpose(c) == Purpose(d)
    requires Payload(c) == Payload(d)
    ensures c == d
  {
    hide Purpose, Field;
    SamePurpose(c, d);
    match c
    case PackContext(root, generation, ordinal) =>
      FieldIsReadable(root, LittleEndian(generation, WORD) + (LittleEndian(ordinal, WORD) + []),
                      d.root, LittleEndian(d.generation, WORD) + (LittleEndian(d.ordinal, WORD) + []));
      WordIsReadable(generation, LittleEndian(ordinal, WORD) + [], d.generation, LittleEndian(d.ordinal, WORD) + []);
      WordIsReadable(ordinal, [], d.ordinal, []);
    case EnvelopeContext(_, _, _, _) => EnvelopeInjective(c, d);
    case BodyContext(root, generation) =>
      FieldIsReadable(root, LittleEndian(generation, WORD) + [], d.root, LittleEndian(d.generation, WORD) + []);
      WordIsReadable(generation, [], d.generation, []);
    case LinkContext(root, generation, previous) =>
      FieldIsReadable(root, LittleEndian(generation, WORD) + (Field(previous) + []),
                      d.root, LittleEndian(d.generation, WORD) + (Field(d.previous) + []));
      WordIsReadable(generation, Field(previous) + [], d.generation, Field(d.previous) + []);
      FieldIsReadable(previous, [], d.previous, []);
    case StreamContext(base, header) =>
      FieldIsReadable(base, Field(header) + [], d.base, Field(d.header) + []);
      FieldIsReadable(header, [], d.header, []);
  }

  lemma EnvelopeInjective(c: Context, d: Context)
    requires WellSized(c) && WellSized(d) && c.EnvelopeContext? && d.EnvelopeContext?
    requires Payload(c) == Payload(d)
    ensures c == d
  {
    hide Field;
    var version := LittleEndian(FORMAT_VERSION, LENGTH);
    var afterC := LittleEndian(c.generation, WORD) + (Field(c.commitment) + (Field(c.recipient) + []));
    var afterD := LittleEndian(d.generation, WORD) + (Field(d.commitment) + (Field(d.recipient) + []));
    FieldIsReadable(c.root, version + afterC, d.root, version + afterD);
    SplitEqual(version, afterC, version, afterD);
    WordIsReadable(c.generation, Field(c.commitment) + (Field(c.recipient) + []),
                   d.generation, Field(d.commitment) + (Field(d.recipient) + []));
    FieldIsReadable(c.commitment, Field(c.recipient) + [], d.commitment, Field(d.recipient) + []);
    FieldIsReadable(c.recipient, [], d.recipient, []);
  }

  /** Associated data determines its purpose and every input. */
  lemma AadInjective(c: Context, d: Context)
    requires WellSized(c) && WellSized(d)
    ensures Aad(c) == Aad(d) <==> c == d
  {
    hide Payload, Domain, Purpose;
    if Aad(c) == Aad(d) {
      if !c.HeaderContext? {
        DomainBytes(Purpose(c), Payload(c));
      }
      if !d.HeaderContext? {
        DomainBytes(Purpose(d), Payload(d));
      }
      if !c.HeaderContext? && !d.HeaderContext? {
        PurposesApart(c, d);
        SplitEqual(Domain(Purpose(c)), Payload(c), Domain(Purpose(d)), Payload(d));
        PayloadInjective(c, d);
      }
    }
  }

  // ---------------------------------------------------------------------------
  // Signed messages and subkeys

  /** `manifest_signed_bytes` */
  function SignedBytes(header: Bytes, content: Bytes, digest: Bytes): Bytes {
    Field(header) + (Field(content) + (Field(digest) + []))
  }

  /** One signature covers one header, one sealed content and one body digest. */
  lemma SignedBytesInjective(h1: Bytes, c1: Bytes, d1: Bytes, h2: Bytes, c2: Bytes, d2: Bytes)
    requires |h1| < MAX_FIELD && |c1| < MAX_FIELD && |d1| < MAX_FIELD
    requires |h2| < MAX_FIELD && |c2| < MAX_FIELD && |d2| < MAX_FIELD
    ensures SignedBytes(h1, c1, d1) == SignedBytes(h2, c2, d2) <==> h1 == h2 && c1 == c2 && d1 == d2
  {
    hide Field;
    if SignedBytes(h1, c1, d1) == SignedBytes(h2, c2, d2) {
      FieldIsReadable(h1, Field(c1) + (Field(d1) + []), h2, Field(c2) + (Field(d2) + []));
      FieldIsReadable(c1, Field(d1) + [], c2, Field(d2) + []);
      FieldIsReadable(d1, [], d2, []);
    }
  }

  datatype Signing = ManifestSigning | PolicySigning

  function SigningPurpose(kind: Signing): string {
    if kind.ManifestSigning? then "manifest" else "policy"
  }

  /** The message `sign_domain` signs, over the digest of the exact bytes. */
  function SigningMessage(kind: Signing, digest: Bytes): Bytes {
    Domain(SigningPurpose(kind)) + digest
  }

  /** A manifest signature is never a policy signature. */
  lemma SigningMessageInjective(k1: Signing, d1: Bytes, k2: Signing, d2: Bytes)
    ensures SigningMessage(k1, d1) == SigningMessage(k2, d2) <==> k1 == k2 && d1 == d2
  {
    hide Domain;
    var p1, p2 := SigningPurpose(k1), SigningPurpose(k2);
    DomainBytes(p1, d1);
    DomainBytes(p2, d2);
    if SigningMessage(k1, d1) == SigningMessage(k2, d2) {
      assert SigningMessage(k1, d1)[16 + 0] == p1[0] as int % 256;
      assert SigningMessage(k2, d2)[16 + 0] == p2[0] as int % 256;
      SplitEqual(Domain(p1), d1, Domain(p2), d2);
    }
  }

  datatype SubkeyKind = ManifestBody | Pack | PredecessorLink | SealedHeader

  function KindByte(kind: SubkeyKind): byte {
    match kind
    case ManifestBody => 1
    case Pack => 2
    case PredecessorLink => 3
    case SealedHeader => 4
  }

  /** The HKDF info of `derive_subkey`; a root that is not 32 bytes is refused. */
  function SubkeyInfo(root: Bytes, generation: u64, kind: SubkeyKind, ordinal: u64): Result<Bytes> {
    var _ :- Need(|root| == 32);
    Ok(root + (LittleEndian(generation, WORD) + ([KindByte(kind)] + (LittleEndian(ordinal, WORD) + []))))
  }

  /** No two uses of a generation key share a subkey. */
  lemma SubkeyInfoInjective(
    r1: Bytes, g1: u64, k1: SubkeyKind, o1: u64, r2: Bytes, g2: u64, k2: SubkeyKind, o2: u64)
    requires SubkeyInfo(r1, g1, k1, o1).Ok? && SubkeyInfo(r2, g2, k2, o2).Ok?
    ensures SubkeyInfo(r1, g1, k1, o1) == SubkeyInfo(r2, g2, k2, o2) <==> r1 == r2 && g1 == g2 && k1 == k2 && o1 == o2
  {
    if SubkeyInfo(r1, g1, k1, o1) == SubkeyInfo(r2, g2, k2, o2) {
      var afterKind1, afterKind2 := LittleEndian(o1, WORD) + [], LittleEndian(o2, WORD) + [];
      SplitEqual(r1, LittleEndian(g1, WORD) + ([KindByte(k1)] + afterKind1),
                 r2, LittleEndian(g2, WORD) + ([KindByte(k2)] + afterKind2));
      WordIsReadable(g1, [KindByte(k1)] + afterKind1, g2, [KindByte(k2)] + afterKind2);
      SplitEqual([KindByte(k1)], afterKind1, [KindByte(k2)], afterKind2);
      WordIsReadable(o1, [], o2, []);
    }
  }
}
