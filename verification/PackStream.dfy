/** The segmented pack encryption of src/crypto.rs: `read_chunk`,
    `seal_pack_stream` and `open_pack_stream`. A ciphertext cell names the
    segment it belongs to, so a segment opens under exactly its own key, nonce,
    associated data, counter and final flag. */
module PackStream {
  import opened Prelude
  import opened Encodings

  const CHUNK: nat := 1048576
  const TAG: nat := 16
  const NONCE: nat := 19
  const HEADER: nat := 31
  const SEGMENT_LIMIT: nat := 0xffff_ffff

  datatype SegmentContext = SegmentContext(key: nat, nonce: Bytes, aad: Bytes, counter: nat, last: bool)
  datatype Cell = Plain(value: byte) | Cipher(context: SegmentContext, plaintext: Bytes, index: nat)

  /** The SHA-256 of a whole stream. */
  datatype StreamId = Digest(cells: seq<Cell>)

  function Encrypt(context: SegmentContext, plaintext: Bytes): (r: seq<Cell>)
    ensures |r| == |plaintext| + TAG
  {
    seq(|plaintext| + TAG, (i: nat) => Cipher(context, plaintext, i))
  }

  function Decrypt(context: SegmentContext, cells: seq<Cell>): (r: Option<Bytes>)
    ensures forall p :: r == Some(p) <==> cells == Encrypt(context, p)
  {
    if cells != [] && cells[0].Cipher? && cells == Encrypt(context, cells[0].plaintext) then Some(cells[0].plaintext)
    else DecryptsToNothing(context, cells); None
  }

  lemma DecryptsToNothing(context: SegmentContext, cells: seq<Cell>)
    requires !(cells != [] && cells[0].Cipher? && cells == Encrypt(context, cells[0].plaintext))
    ensures forall p :: cells != Encrypt(context, p)
  {
    forall p
      ensures cells != Encrypt(context, p)
    {
      assert Encrypt(context, p)[0] == Cipher(context, p, 0);
    }
  }

  function HeaderBytes(nonce: Bytes): Bytes {
    Ascii("E2EEPK6\0") + LittleEndian(CHUNK, 4) + nonce
  }

  function Raw(bytes: Bytes): (r: seq<Cell>)
    ensures |r| == |bytes|
  {
    seq(|bytes|, i requires 0 <= i < |bytes| => Plain(bytes[i]))
  }

  /** Full segments under their counters, then one final segment. */
  function Segments(key: nat, nonce: Bytes, aad: Bytes, plaintext: Bytes, counter: nat): seq<Cell>
    decreases |plaintext|
  {
    if |plaintext| <= CHUNK then Encrypt(SegmentContext(key, nonce, aad, counter, true), plaintext)
    else
      Encrypt(SegmentContext(key, nonce, aad, counter, false), plaintext[..CHUNK])
      + Segments(key, nonce, aad, plaintext[CHUNK..], counter + 1)
  }

  function StreamAad(base: Bytes, nonce: Bytes): Bytes {
    Aad(StreamContext(base, HeaderBytes(nonce)))
  }

  /** The whole stream that seals a plaintext. */
  function StreamOf(key: nat, nonce: Bytes, base: Bytes, plaintext: Bytes): seq<Cell> {
    Raw(HeaderBytes(nonce)) + Segments(key, nonce, StreamAad(base, nonce), plaintext, 0)
  }

  /** `div_ceil` */
  function SegmentCount(size: nat): nat {
    (size + CHUNK - 1) / CHUNK
  }

  // ---------------------------------------------------------------------------
  // Size

  lemma {:induction false} SegmentsSize(key: nat, nonce: Bytes, aad: Bytes, plaintext: Bytes, counter: nat)
    requires plaintext != []
    ensures |Segments(key, nonce, aad, plaintext, counter)| == |plaintext| + TAG * SegmentCount(|plaintext|)
    decreases |plaintext|
  {
    if |plaintext| > CHUNK {
      SegmentsSize(key, nonce, aad, plaintext[CHUNK..], counter + 1);
      assert SegmentCount(|plaintext|) == SegmentCount(|plaintext| - CHUNK) + 1;
    } else {
      assert SegmentCount(|plaintext|) == 1;
    }
  }

  /** A sealed stream is 31 bytes of header, the plaintext, and 16 bytes for each
      begun mebibyte, also when the plaintext ends on a segment boundary. */
  lemma StreamSize(key: nat, nonce: Bytes, base: Bytes, plaintext: Bytes)
    requires plaintext != [] && |nonce| == NONCE
    ensures |StreamOf(key, nonce, base, plaintext)| == HEADER + |plaintext| + TAG * SegmentCount(|plaintext|)
  {
    hide Segments, Aad, Raw;
    SegmentsSize(key, nonce, StreamAad(base, nonce), plaintext, 0);
  }

  // ---------------------------------------------------------------------------
  // Readers that return short counts

  datatype ReadEvent = Interrupted | Failed | Short(count: nat)
  datatype ReadOutcome<T> = Got(data: seq<T>) | WasInterrupted | ReadFailed

  /** An input that answers each read as its events say: interrupted, failed,
      or with as many elements as it likes, at least one before the end. */
  class Source<T> {
    var data: seq<T>
    var events: seq<ReadEvent>

    constructor (data: seq<T>, events: seq<ReadEvent>)
      ensures this.data == data && this.events == events
    {
      this.data, this.events := data, events;
    }

    ghost predicate Reliable()
      reads this
    {
      Failed !in events
    }

    method Read(capacity: nat) returns (outcome: ReadOutcome<T>)
      modifies this
      ensures old(Reliable()) ==> Reliable() && !outcome.ReadFailed?
      ensures outcome.Got? ==>
        && old(data) == outcome.data + data
        && |outcome.data| <= capacity
        && (outcome.data == [] <==> capacity == 0 || old(data) == [])
        && |events| <= |old(events)|
      ensures !outcome.Got? ==> data == old(data) && |events| < |old(events)|
    {
      var event := Short(capacity);
      if events != [] {
        event := events[0];
        events := events[1..];
      }
      match event
      case Interrupted => return WasInterrupted;
      case Failed => return ReadFailed;
      case Short(count) =>
        var most := if capacity < |data| then capacity else |data|;
        var taken := if count == 0 && most > 0 then 1 else if count < most then count else most;
        outcome := Got(data[..taken]);
        data := data[taken..];
    }

    /** `read_exact` */
    method ReadExact(size: nat) returns (r: Result<seq<T>>)
      modifies this
      ensures old(Reliable()) ==> Reliable() && (r.Ok? <==> size <= |old(data)|)
      ensures r.Ok? ==> |r.value| == size && old(data) == r.value + data
    {
      var filled: seq<T> := [];
      while |filled| < size
        invariant |filled| <= size
        invariant old(data) == filled + data
        invariant old(Reliable()) ==> Reliable()
        decreases size - |filled|, |events|
      {
        var outcome := Read(size - |filled|);
        if outcome.ReadFailed? {
          return Err({OtherIo});
        }
        if outcome.Got? {
          if outcome.data == [] {
            return Err({OtherIo});
          }
          filled := filled + outcome.data;
        }
      }
      return Ok(filled);
    }

    /** `read_chunk`: a full chunk, or whatever is left. */
    method ReadChunk() returns (r: Result<seq<T>>)
      modifies this
      ensures old(Reliable()) ==> Reliable() && r.Ok?
      ensures r.Ok? ==>
        && old(data) == r.value + data
        && |r.value| <= CHUNK
        && (|r.value| == CHUNK || data == [])
    {
      var filled: seq<T> := [];
      while |filled| < CHUNK
        invariant |filled| <= CHUNK
        invariant old(data) == filled + data
        invariant old(Reliable()) ==> Reliable()
        decreases CHUNK - |filled|, |events|
      {
        var outcome := Read(CHUNK - |filled|);
        if outcome.ReadFailed? {
          return Err({OtherIo});
        }
        if outcome.Got? {
          if outcome.data == [] {
            break;
          }
          filled := filled + outcome.data;
        }
      }
      return Ok(filled);
    }
  }

  // ---------------------------------------------------------------------------
  // Sealing

  datatype SealResult = SealResult(id: StreamId, plaintextSize: u64, ciphertextSize: u64)

  lemma FullSegment(key: nat, nonce: Bytes, aad: Bytes, current: Bytes, rest: Bytes, counter: nat)
    requires |current| == CHUNK && rest != []
    ensures Segments(key, nonce, aad, current + rest, counter)
         == Encrypt(SegmentContext(key, nonce, aad, counter, false), current)
            + Segments(key, nonce, aad, rest, counter + 1)
  {
    assert (current + rest)[..CHUNK] == current && (current + rest)[CHUNK..] == rest;
  }

  lemma CountsChunk(rest: nat)
    requires rest > 0
    ensures SegmentCount(CHUNK + rest) == SegmentCount(rest) + 1
    ensures SegmentCount(rest) >= 1
    ensures rest <= CHUNK ==> SegmentCount(rest) == 1
    ensures rest <= SegmentCount(rest) * CHUNK
  {
  }

  /** `seal_pack_stream`, whatever the pattern of short reads. It succeeds for
      every nonempty plaintext of fewer than 2^32 - 1 segments, and reports the
      digest and both sizes of the stream it wrote. */
  method SealPackStream(key: nat, plaintext: Source<byte>, base: Bytes, nonce: Bytes)
    returns (r: Result<SealResult>, output: seq<Cell>)
    requires |nonce| == NONCE
    modifies plaintext
    ensures old(plaintext.Reliable()) ==>
      (r.Ok? <==> 0 < |old(plaintext.data)| && SegmentCount(|old(plaintext.data)|) < SEGMENT_LIMIT)
    ensures r.Ok? ==>
      && output == StreamOf(key, nonce, base, old(plaintext.data))
      && r.value.id == Digest(output)
      && r.value.plaintextSize == |old(plaintext.data)|
      && r.value.ciphertextSize == |output|
  {
    hide Segments, Encrypt, Aad, Raw, HeaderBytes, SegmentCount;
    var aad := StreamAad(base, nonce);
    output := Raw(HeaderBytes(nonce));
    var first := plaintext.ReadChunk();
    if first.Err? {
      return first.PropagateFailure(), output;
    }
    var current := first.value;
    if current == [] {
      return Err({Rejected}), output;
    }
    var plaintextSize, segments := 0, 0;
    ghost var whole := old(plaintext.data);
    while true
      invariant current != [] && |current| <= CHUNK
      invariant |current| == CHUNK || plaintext.data == []
      invariant 0 <= plaintextSize <= |whole|
      invariant whole == whole[..plaintextSize] + current + plaintext.data
      invariant plaintextSize == segments * CHUNK
      invariant segments + SegmentCount(|current| + |plaintext.data|) == SegmentCount(|whole|)
      invariant segments < SEGMENT_LIMIT
      invariant output + Segments(key, nonce, aad, current + plaintext.data, segments) == StreamOf(key, nonce, base, whole)
      invariant old(plaintext.Reliable()) ==> plaintext.Reliable()
      decreases |whole| - plaintextSize
    {
      ghost var pending := plaintext.data;
      CountsChunk(|current| + |pending|);
      var next := plaintext.ReadChunk();
      if next.Err? {
        return next.PropagateFailure(), output;
      }
      if plaintextSize + |current| >= 0x1_0000_0000_0000_0000 {
        assert false;
      }
      plaintextSize := plaintextSize + |current|;
      segments := segments + 1;
      if segments >= SEGMENT_LIMIT {
        return Err({Rejected}), output;
      }
      if next.value == [] {
        assert pending == [] && current + pending == current;
        LastSegment(key, nonce, aad, current, segments - 1);
        output := output + Encrypt(SegmentContext(key, nonce, aad, segments - 1, true), current);
        assert whole[..plaintextSize] == whole;
        CountsChunk(|current|);
        SealedSizeFits(key, nonce, base, whole);
        return Ok(SealResult(Digest(output), plaintextSize, |output|)), output;
      }
      FullSegment(key, nonce, aad, current, pending, segments - 1);
      CountsChunk(|pending|);
      output := output + Encrypt(SegmentContext(key, nonce, aad, segments - 1, false), current);
      current := next.value;
      assert pending == current + plaintext.data;
    }
  }

  lemma SealedSizeFits(key: nat, nonce: Bytes, base: Bytes, plaintext: Bytes)
    requires plaintext != [] && |nonce| == NONCE && SegmentCount(|plaintext|) < SEGMENT_LIMIT
    ensures |StreamOf(key, nonce, base, plaintext)| < 0x1_0000_0000_0000_0000
  {
    hide StreamOf;
    StreamSize(key, nonce, base, plaintext);
    CountsChunk(|plaintext|);
  }

  lemma LastSegment(key: nat, nonce: Bytes, aad: Bytes, current: Bytes, counter: nat)
    requires |current| <= CHUNK
    ensures Segments(key, nonce, aad, current, counter)
         == Encrypt(SegmentContext(key, nonce, aad, counter, true), current)
  {
  }

  // ---------------------------------------------------------------------------
  // Opening

  /** What the loop of `open_pack_stream` and the check for trailing data accept. */
  function DecodeSegments(key: nat, nonce: Bytes, aad: Bytes, cells: seq<Cell>, size: nat, counter: nat): Option<Bytes>
    decreases size
  {
    if size <= CHUNK then
      if |cells| != size + TAG then None else Decrypt(SegmentContext(key, nonce, aad, counter, true), cells)
    else if |cells| < CHUNK + TAG then None
    else
      var first := Decrypt(SegmentContext(key, nonce, aad, counter, false), cells[..CHUNK + TAG]);
      var rest := DecodeSegments(key, nonce, aad, cells[CHUNK + TAG..], size - CHUNK, counter + 1);
      if first.Some? && rest.Some? then Some(first.value + rest.value) else None
  }

  /** Decoding accepts exactly the sealed segments of a plaintext of that size. */
  lemma {:induction false} DecodesExactly(
    key: nat, nonce: Bytes, aad: Bytes, cells: seq<Cell>, size: nat, counter: nat, p: Bytes)
    ensures DecodeSegments(key, nonce, aad, cells, size, counter) == Some(p)
       <==> cells == Segments(key, nonce, aad, p, counter) && |p| == size
    decreases size
  {
    hide Encrypt, Decrypt;
    if size > CHUNK {
      var context := SegmentContext(key, nonce, aad, counter, false);
      if DecodeSegments(key, nonce, aad, cells, size, counter) == Some(p) {
        var first := Decrypt(context, cells[..CHUNK + TAG]).value;
        var rest := DecodeSegments(key, nonce, aad, cells[CHUNK + TAG..], size - CHUNK, counter + 1).value;
        DecodesExactly(key, nonce, aad, cells[CHUNK + TAG..], size - CHUNK, counter + 1, rest);
        assert |first| == CHUNK;
        assert p[..CHUNK] == first && p[CHUNK..] == rest;
        assert cells == cells[..CHUNK + TAG] + cells[CHUNK + TAG..];
      }
      if cells == Segments(key, nonce, aad, p, counter) && |p| == size {
        var first := Encrypt(context, p[..CHUNK]);
        var rest := Segments(key, nonce, aad, p[CHUNK..], counter + 1);
        assert cells == first + rest;
        assert cells[..CHUNK + TAG] == first && cells[CHUNK + TAG..] == rest;
        DecodesExactly(key, nonce, aad, rest, size - CHUNK, counter + 1, p[CHUNK..]);
        assert p == p[..CHUNK] + p[CHUNK..];
      }
    }
  }

  /** The stream is the sealing of this plaintext under some nonce, and has the
      size and digest the manifest names. */
  ghost predicate SealedAs(
    cells: seq<Cell>, key: nat, base: Bytes, size: nat, id: StreamId, nonce: Bytes, plaintext: Bytes) {
    && |nonce| == NONCE
    && cells == StreamOf(key, nonce, base, plaintext)
    && |plaintext| == size
    && 0 < size && SegmentCount(size) < SEGMENT_LIMIT
    && id == Digest(cells)
  }

  /** The nonce a stream's header carries, if the header is well formed. */
  function NonceOf(header: seq<Cell>): (r: Option<Bytes>)
    requires |header| == HEADER
    ensures r.Some? ==> |r.value| == NONCE && header == Raw(HeaderBytes(r.value))
    ensures r.None? ==> forall nonce :: |nonce| == NONCE ==> header != Raw(HeaderBytes(nonce))
  {
    if forall i :: 0 <= i < HEADER ==> header[i].Plain? then
      var nonce := seq(NONCE, i requires 0 <= i < NONCE => header[12 + i].value);
      if header == Raw(HeaderBytes(nonce)) then Some(nonce)
      else OtherHeader(header, nonce); None
    else
      NotRaw(header);
      None
  }

  lemma OtherHeader(header: seq<Cell>, nonce: Bytes)
    requires |header| == HEADER && |nonce| == NONCE
    requires forall i :: 0 <= i < NONCE ==> header[12 + i] == Plain(nonce[i])
    requires header != Raw(HeaderBytes(nonce))
    ensures forall n :: |n| == NONCE ==> header != Raw(HeaderBytes(n))
  {
    forall n | |n| == NONCE
      ensures header != Raw(HeaderBytes(n))
    {
      if header == Raw(HeaderBytes(n)) {
        NonceInHeader(header, nonce, n);
      }
    }
  }

  lemma NonceInHeader(header: seq<Cell>, nonce: Bytes, n: Bytes)
    requires |header| == HEADER && |nonce| == |n| == NONCE
    requires forall i :: 0 <= i < NONCE ==> header[12 + i] == Plain(nonce[i])
    requires header == Raw(HeaderBytes(n))
    ensures nonce == n
  {
    forall i | 0 <= i < NONCE
      ensures nonce[i] == n[i]
    {
      assert HeaderBytes(n)[12 + i] == n[i];
      assert header[12 + i] == Plain(n[i]);
    }
  }

  lemma NotRaw(header: seq<Cell>)
    requires exists i :: 0 <= i < |header| && !header[i].Plain?
    ensures forall bytes :: header != Raw(bytes)
  {
  }

  /** `open_pack_stream`, whatever the pattern of short reads: it succeeds on
      exactly the stream that seals some plaintext of the given size under this
      key and associated data and that has the given digest, and it returns
      that plaintext. Truncated, extended, reordered, relabelled or mixed
      streams are all refused. */
  method OpenPackStream(key: nat, ciphertext: Source<Cell>, base: Bytes, size: u64, id: StreamId)
    returns (r: Result<nat>, plaintext: Bytes)
    modifies ciphertext
    ensures r.Ok? ==>
      && r.value == |old(ciphertext.data)|
      && exists nonce :: SealedAs(old(ciphertext.data), key, base, size, id, nonce, plaintext)
    ensures old(ciphertext.Reliable()) ==>
      (r.Ok? <==> exists nonce, p :: SealedAs(old(ciphertext.data), key, base, size, id, nonce, p))
  {
    hide Segments, Encrypt, Decrypt, Aad, Raw, HeaderBytes, SegmentCount, DecodeSegments;
    plaintext := [];
    ghost var whole := old(ciphertext.data);
    if size == 0 {
      return Err({Rejected}), plaintext;
    }
    var header := ciphertext.ReadExact(HEADER);
    if header.Err? {
      ShortStreams(key, base, whole);
      return header.PropagateFailure(), plaintext;
    }
    ghost var body := ciphertext.data;
    var nonce := NonceOf(header.value);
    if nonce.None? {
      HeaderDecides(key, base, header.value, body);
      var magic := Ascii("E2EEPK6\0");
      return Err({if header.value[..|magic|] == Raw(magic) then Unsupported else Rejected}), plaintext;
    }
    var segments := SegmentCount(size);
    if segments >= SEGMENT_LIMIT {
      return Err({Rejected}), plaintext;
    }
    CountsChunk(size);
    if HEADER + size + segments * TAG >= 0x1_0000_0000_0000_0000 {
      assert false;
    }
    var decoded: Result<seq<Cell>>;
    decoded, plaintext := OpenSegments(key, nonce.value, StreamAad(base, nonce.value), ciphertext, size, segments);
    OpensExactly(key, base, header.value, body, nonce.value, size, id);
    if decoded.Err? {
      return decoded.PropagateFailure(), plaintext;
    }
    DecodesExactly(key, nonce.value, StreamAad(base, nonce.value), body, size, 0, plaintext);
    if id != Digest(header.value + decoded.value) {
      return Err({Rejected}), plaintext;
    }
    assert SealedAs(whole, key, base, size, id, nonce.value, plaintext);
    return Ok(HEADER + |decoded.value|), plaintext;
  }

  lemma ShortStreams(key: nat, base: Bytes, cells: seq<Cell>)
    ensures forall nonce, p :: |nonce| == NONCE && cells == StreamOf(key, nonce, base, p) ==> |cells| >= HEADER
  {
    hide Segments, Aad, Raw;
  }

  lemma HeaderDecides(key: nat, base: Bytes, header: seq<Cell>, body: seq<Cell>)
    requires |header| == HEADER
    ensures forall nonce, p :: |nonce| == NONCE && header + body == StreamOf(key, nonce, base, p) ==>
      header == Raw(HeaderBytes(nonce)) && body == Segments(key, nonce, StreamAad(base, nonce), p, 0)
  {
    hide Segments, Aad, Raw;
    forall nonce, p | |nonce| == NONCE && header + body == StreamOf(key, nonce, base, p)
      ensures header == Raw(HeaderBytes(nonce)) && body == Segments(key, nonce, StreamAad(base, nonce), p, 0)
    {
      var raw, rest := Raw(HeaderBytes(nonce)), Segments(key, nonce, StreamAad(base, nonce), p, 0);
      assert header == (header + body)[..HEADER] == raw;
      assert body == (header + body)[HEADER..] == rest;
    }
  }

  lemma OpensExactly(key: nat, base: Bytes, header: seq<Cell>, body: seq<Cell>, nonce: Bytes, size: nat, id: StreamId)
    requires |header| == HEADER && |nonce| == NONCE && header == Raw(HeaderBytes(nonce))
    ensures (exists n, p :: SealedAs(header + body, key, base, size, id, n, p)) ==>
      && DecodeSegments(key, nonce, StreamAad(base, nonce), body, size, 0).Some?
      && id == Digest(header + body)
  {
    hide Segments, Aad, Raw, DecodeSegments, SegmentCount;
    if exists n, p :: SealedAs(header + body, key, base, size, id, n, p) {
      var n, p :| SealedAs(header + body, key, base, size, id, n, p);
      HeaderDecides(key, base, header, body);
      SameNonce(nonce, n);
      DecodesExactly(key, n, StreamAad(base, n), body, size, 0, p);
    }
  }

  lemma SameNonce(a: Bytes, b: Bytes)
    requires |a| == |b| == NONCE && Raw(HeaderBytes(a)) == Raw(HeaderBytes(b))
    ensures a == b
  {
    forall i | 0 <= i < NONCE
      ensures Raw(HeaderBytes(b))[12 + i] == Plain(a[i])
    {
      assert HeaderBytes(a)[12 + i] == a[i];
    }
    NonceInHeader(Raw(HeaderBytes(b)), a, b);
  }

  /** The segment loop and the check that nothing follows; the result is what
      was hashed and counted. */
  method OpenSegments(key: nat, nonce: Bytes, aad: Bytes, ciphertext: Source<Cell>, size: u64, segments: nat)
    returns (r: Result<seq<Cell>>, plaintext: Bytes)
    requires size > 0 && segments == SegmentCount(size)
    modifies ciphertext
    ensures r.Ok? ==>
      && DecodeSegments(key, nonce, aad, old(ciphertext.data), size, 0) == Some(plaintext)
      && r.value == old(ciphertext.data)
    ensures old(ciphertext.Reliable()) && DecodeSegments(key, nonce, aad, old(ciphertext.data), size, 0).Some? ==> r.Ok?
  {
    hide Encrypt, Decrypt, DecodeSegments, SegmentCount;
    plaintext := [];
    var remaining := size;
    var hashed: seq<Cell> := [];
    ghost var goal := DecodeSegments(key, nonce, aad, ciphertext.data, size, 0);
    CountsChunk(size);
    PrependNothing(goal);
    var segment := 0;
    while segment + 1 < segments
      invariant 0 < remaining <= size && 0 <= segment
      invariant SegmentCount(remaining) == segments - segment
      invariant hashed + ciphertext.data == old(ciphertext.data)
      invariant goal == Prepend(plaintext, DecodeSegments(key, nonce, aad, ciphertext.data, remaining, segment))
      invariant old(ciphertext.Reliable()) ==> ciphertext.Reliable()
    {
      LargeWhenCounted(remaining);
      ghost var before := ciphertext.data;
      var cells := ciphertext.ReadExact(CHUNK + TAG);
      ShortSegment(key, nonce, aad, before, remaining, segment);
      if cells.Err? {
        return cells.PropagateFailure(), plaintext;
      }
      FirstSegment(key, nonce, aad, cells.value, ciphertext.data, remaining, segment);
      var chunk := Decrypt(SegmentContext(key, nonce, aad, segment, false), cells.value);
      if chunk.None? {
        return Err({Rejected}), plaintext;
      }
      CountsChunk(remaining - CHUNK);
      PrependTwice(plaintext, chunk.value,
                   DecodeSegments(key, nonce, aad, ciphertext.data, remaining - CHUNK, segment + 1));
      plaintext := plaintext + chunk.value;
      remaining := remaining - CHUNK;
      hashed := hashed + cells.value;
      segment := segment + 1;
    }
    OneLeft(remaining);
    ghost var before := ciphertext.data;
    FinalSegment(key, nonce, aad, before, remaining, segment);
    var cells := ciphertext.ReadExact(remaining + TAG);
    if cells.Err? {
      return cells.PropagateFailure(), plaintext;
    }
    var chunk := Decrypt(SegmentContext(key, nonce, aad, segment, true), cells.value);
    if chunk.None? {
      if ciphertext.data == [] {
        assert before == cells.value;
      }
      return Err({Rejected}), plaintext;
    }
    plaintext := plaintext + chunk.value;
    while true
      invariant before == cells.value + ciphertext.data
      invariant old(ciphertext.Reliable()) ==> ciphertext.Reliable()
      decreases |ciphertext.events|
    {
      var outcome := ciphertext.Read(1);
      if outcome.ReadFailed? {
        return Err({OtherIo}), plaintext;
      }
      if outcome.Got? {
        if outcome.data == [] {
          assert before == cells.value;
          return Ok(hashed + cells.value), plaintext;
        }
        return Err({Rejected}), plaintext;
      }
    }
  }

  function Prepend(prefix: Bytes, rest: Option<Bytes>): Option<Bytes> {
    if rest.Some? then Some(prefix + rest.value) else None
  }

  lemma PrependNothing(rest: Option<Bytes>)
    ensures Prepend([], rest) == rest
  {
    assert rest.Some? ==> [] + rest.value == rest.value;
  }

  lemma PrependTwice(a: Bytes, b: Bytes, rest: Option<Bytes>)
    ensures Prepend(a, Prepend(b, rest)) == Prepend(a + b, rest)
  {
    assert rest.Some? ==> a + (b + rest.value) == a + b + rest.value;
  }

  lemma LargeWhenCounted(remaining: nat)
    requires SegmentCount(remaining) > 1
    ensures remaining > CHUNK
  {
  }

  lemma OneLeft(remaining: nat)
    requires remaining > 0 && SegmentCount(remaining) <= 1
    ensures remaining <= CHUNK
  {
  }

  lemma ShortSegment(key: nat, nonce: Bytes, aad: Bytes, cells: seq<Cell>, size: nat, counter: nat)
    requires size > CHUNK
    ensures |cells| < CHUNK + TAG ==> DecodeSegments(key, nonce, aad, cells, size, counter).None?
  {
  }

  lemma FirstSegment(key: nat, nonce: Bytes, aad: Bytes, first: seq<Cell>, rest: seq<Cell>, size: nat, counter: nat)
    requires size > CHUNK && |first| == CHUNK + TAG
    ensures
      var chunk := Decrypt(SegmentContext(key, nonce, aad, counter, false), first);
      var after := DecodeSegments(key, nonce, aad, rest, size - CHUNK, counter + 1);
      DecodeSegments(key, nonce, aad, first + rest, size, counter)
        == if chunk.Some? then Prepend(chunk.value, after) else None
  {
    hide Decrypt;
    assert (first + rest)[..CHUNK + TAG] == first && (first + rest)[CHUNK + TAG..] == rest;
  }

  lemma FinalSegment(key: nat, nonce: Bytes, aad: Bytes, cells: seq<Cell>, size: nat, counter: nat)
    requires size <= CHUNK
    ensures DecodeSegments(key, nonce, aad, cells, size, counter)
         == if |cells| == size + TAG then Decrypt(SegmentContext(key, nonce, aad, counter, true), cells) else None
  {
  }

  // ---------------------------------------------------------------------------
  // One stream, one meaning

  lemma FirstCell(key: nat, nonce: Bytes, aad: Bytes, p: Bytes, counter: nat)
    ensures
      var first := if |p| <= CHUNK then p else p[..CHUNK];
      && |Segments(key, nonce, aad, p, counter)| >= |first| + TAG
      && Segments(key, nonce, aad, p, counter)[0]
         == Cipher(SegmentContext(key, nonce, aad, counter, |p| <= CHUNK), first, 0)
  {
  }

  lemma {:induction false} SegmentsInjective(key: nat, nonce: Bytes, aad: Bytes, p: Bytes, q: Bytes, counter: nat)
    requires Segments(key, nonce, aad, p, counter) == Segments(key, nonce, aad, q, counter)
    ensures p == q
    decreases |p|
  {
    hide Encrypt;
    FirstCell(key, nonce, aad, p, counter);
    FirstCell(key, nonce, aad, q, counter);
    if |p| > CHUNK {
      var first := Encrypt(SegmentContext(key, nonce, aad, counter, false), p[..CHUNK]);
      var restP := Segments(key, nonce, aad, p[CHUNK..], counter + 1);
      var restQ := Segments(key, nonce, aad, q[CHUNK..], counter + 1);
      assert first + restP == first + restQ;
      assert restP == (first + restP)[|first|..] && restQ == (first + restQ)[|first|..];
      SegmentsInjective(key, nonce, aad, p[CHUNK..], q[CHUNK..], counter + 1);
      assert p == p[..CHUNK] + p[CHUNK..] && q == q[..CHUNK] + q[CHUNK..];
    }
  }

  /** A stream determines its key, nonce, associated data and plaintext. */
  lemma StreamInjective(key: nat, nonce: Bytes, base: Bytes, p: Bytes, key2: nat, nonce2: Bytes, base2: Bytes, q: Bytes)
    requires |nonce| == |nonce2| == NONCE && |base| < MAX_FIELD && |base2| < MAX_FIELD
    requires StreamOf(key, nonce, base, p) == StreamOf(key2, nonce2, base2, q)
    ensures key == key2 && nonce == nonce2 && base == base2 && p == q
  {
    hide Segments, Aad, Raw, Encrypt;
    var header, body := Raw(HeaderBytes(nonce)), Segments(key, nonce, StreamAad(base, nonce), p, 0);
    HeaderDecides(key2, base2, header, body);
    SameNonce(nonce, nonce2);
    FirstCell(key, nonce, StreamAad(base, nonce), p, 0);
    FirstCell(key2, nonce, StreamAad(base2, nonce), q, 0);
    AadInjective(StreamContext(base, HeaderBytes(nonce)), StreamContext(base2, HeaderBytes(nonce)));
    SegmentsInjective(key, nonce, StreamAad(base, nonce), p, q, 0);
  }

  /** Round trip and refusal in one: with the digest of a sealed pack, opening
      accepts exactly that stream, under exactly the key, associated data and
      plaintext size it was sealed with. */
  lemma OnlyTheSealedPackOpens(
    data: seq<Cell>, key2: nat, base2: Bytes, size: nat, key: nat, nonce: Bytes, base: Bytes, p: Bytes)
    requires |nonce| == NONCE && |base| < MAX_FIELD && |base2| < MAX_FIELD
    requires p != [] && SegmentCount(|p|) < SEGMENT_LIMIT
    ensures (exists n, q :: SealedAs(data, key2, base2, size, Digest(StreamOf(key, nonce, base, p)), n, q))
       <==> data == StreamOf(key, nonce, base, p) && key2 == key && base2 == base && size == |p|
  {
    hide StreamOf, SegmentCount;
    var id := Digest(StreamOf(key, nonce, base, p));
    if exists n, q :: SealedAs(data, key2, base2, size, id, n, q) {
      var n, q :| SealedAs(data, key2, base2, size, id, n, q);
      StreamInjective(key, nonce, base, p, key2, n, base2, q);
    }
    if data == StreamOf(key, nonce, base, p) && key2 == key && base2 == base && size == |p| {
      assert SealedAs(data, key2, base2, size, id, nonce, p);
    }
  }
}
