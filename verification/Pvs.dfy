/** The .pvs artifact container (pavis-pvs: header.rs, write.rs, read.rs, verify.rs). */
module Pvs {
  import opened Common

  const HEADER_SIZE := 64
  const MAX_PAYLOAD_SIZE := 104_857_600
  const BUFFER_SIZE := 8192
  const MAGIC: Bytes := [0x50, 0x41, 0x56, 0x53]
  const VERSION := 0
  const ALGORITHM_SHA256 := 1

  datatype Header = Header(magic: Bytes, version: nat, algorithm: nat, checksum: Bytes, reserved: Bytes)

  datatype Error =
    | Io
    | TooSmall(actual: nat)
    | InvalidMagic(magic: Bytes)
    | VersionMismatch(version: nat)
    | UnsupportedAlgorithm(algorithm: nat)
    | NonZeroReservedBytes
    | ChecksumMismatch(expected: Bytes, computed: Bytes)
    | PayloadTooLarge(size: nat)
    | CorruptArchive
    | Serialization

  datatype Verified = Verified(header: Header, bytes: Bytes)

  /** A streaming hash: `Sha256::new`, `update`, `finalize`. */
  datatype Hasher<!S> = Hasher(init: S, update: (S, Bytes) -> S, finalize: S -> Bytes)

  /** Feeding a message in pieces is feeding it whole, and digests have 32 bytes. */
  ghost predicate Lawful<S(!new)>(h: Hasher<S>) {
    && (forall s, a, b :: h.update(h.update(s, a), b) == h.update(s, a + b))
    && (forall s :: h.update(s, []) == s)
    && (forall s :: |h.finalize(s)| == 32)
  }

  /** `compute_checksum`. */
  function Digest<S>(h: Hasher<S>, payload: Bytes): Bytes { h.finalize(h.update(h.init, payload)) }

  /* ---- little-endian words ---- */

  function U32ToLe(n: nat): Bytes
    requires n < 0x1_0000_0000
  {
    [n % 256, n / 256 % 256, n / 65536 % 256, n / 16777216]
  }

  function U32FromLe(b: Bytes): nat
    requires |b| == 4
  {
    var b0: int, b1: int, b2: int, b3: int := b[0], b[1], b[2], b[3];
    b0 + 256 * b1 + 65536 * b2 + 16777216 * b3
  }

  lemma U32RoundTrip(n: nat)
    requires n < 0x1_0000_0000
    ensures U32FromLe(U32ToLe(n)) == n
  {
    assert n / 65536 == n / 256 / 256;
    assert n / 16777216 == n / 256 / 256 / 256;
  }

  lemma DigitSplits(x: Byte, y: nat, x': Byte, y': nat)
    requires x + 256 * y == x' + 256 * y'
    ensures x == x' && y == y'
  {
  }

  lemma U32Injective(b: Bytes, c: Bytes)
    requires |b| == 4 && |c| == 4
    ensures U32FromLe(b) == U32FromLe(c) <==> b == c
  {
    if U32FromLe(b) == U32FromLe(c) {
      var b1: int, b2: int, b3: int := b[1], b[2], b[3];
      var c1: int, c2: int, c3: int := c[1], c[2], c[3];
      DigitSplits(b[0], b1 + 256 * (b2 + 256 * b3), c[0], c1 + 256 * (c2 + 256 * c3));
      DigitSplits(b1, b2 + 256 * b3, c1, c2 + 256 * c3);
      DigitSplits(b2, b3, c2, c3);
    }
  }

  /* ---- the header ---- */

  ghost predicate WellFormed(h: Header) {
    && |h.magic| == 4 && h.version < 0x1_0000_0000 && h.algorithm < 0x1_0000_0000
    && |h.checksum| == 32 && |h.reserved| == 20
  }

  function ParseHeader(buf: Bytes): Header
    requires |buf| == HEADER_SIZE
  {
    Header(buf[0..4], U32FromLe(buf[4..8]), U32FromLe(buf[8..12]), buf[12..44], buf[44..64])
  }

  function SerializeHeader(h: Header): Bytes
    requires h.version < 0x1_0000_0000 && h.algorithm < 0x1_0000_0000
  {
    h.magic + U32ToLe(h.version) + U32ToLe(h.algorithm) + h.checksum + h.reserved
  }

  lemma HeaderRoundTrip(h: Header)
    requires WellFormed(h)
    ensures |SerializeHeader(h)| == HEADER_SIZE && ParseHeader(SerializeHeader(h)) == h
  {
    var s := SerializeHeader(h);
    assert s[0..4] == h.magic && s[4..8] == U32ToLe(h.version) && s[8..12] == U32ToLe(h.algorithm);
    assert s[12..44] == h.checksum && s[44..64] == h.reserved;
    U32RoundTrip(h.version);
    U32RoundTrip(h.algorithm);
  }

  /** The parser reads every header byte: two buffers with the same fields are the same buffer. */
  lemma ParseHeaderInjective(a: Bytes, b: Bytes)
    requires |a| == HEADER_SIZE && |b| == HEADER_SIZE
    ensures ParseHeader(a) == ParseHeader(b) <==> a == b
  {
    if ParseHeader(a) == ParseHeader(b) {
      U32Injective(a[4..8], b[4..8]);
      U32Injective(a[8..12], b[8..12]);
      assert a == a[0..4] + a[4..8] + a[8..12] + a[12..44] + a[44..64];
      assert b == b[0..4] + b[4..8] + b[8..12] + b[12..44] + b[44..64];
    }
  }

  predicate AllZero(b: Bytes) { forall i :: 0 <= i < |b| ==> b[i] == 0 }

  function Zeros(n: nat): Bytes { seq(n, i => 0) }

  /** `validate_header`, its checks in order. */
  function ValidateHeader(h: Header): Option<Error> {
    if h.magic != MAGIC then Some(InvalidMagic(h.magic))
    else if h.version != VERSION then Some(VersionMismatch(h.version))
    else if !AllZero(h.reserved) then Some(NonZeroReservedBytes)
    else if h.algorithm != ALGORITHM_SHA256 then Some(UnsupportedAlgorithm(h.algorithm))
    else None
  }

  /* ---- encoding ---- */

  function CanonicalHeader(checksum: Bytes): Header {
    Header(MAGIC, VERSION, ALGORITHM_SHA256, checksum, Zeros(20))
  }

  /** The container around a payload. */
  function Frame<S>(h: Hasher<S>, payload: Bytes): Bytes {
    SerializeHeader(CanonicalHeader(Digest(h, payload))) + payload
  }

  /** `encode` after serialization: the buffer is filled field by field. */
  method Encode<S(!new)>(h: Hasher<S>, payload: Bytes) returns (bytes: Bytes)
    ensures bytes == Frame(h, payload)
    ensures bytes == [0x50, 0x41, 0x56, 0x53] + [0, 0, 0, 0] + [1, 0, 0, 0]
                     + h.finalize(h.update(h.init, payload)) + seq(20, i => 0) + payload
  {
    var header := CanonicalHeader(Digest(h, payload));
    bytes := [];
    bytes := bytes + header.magic;
    bytes := bytes + U32ToLe(header.version);
    bytes := bytes + U32ToLe(header.algorithm);
    bytes := bytes + header.checksum;
    bytes := bytes + header.reserved;
    bytes := bytes + payload;
  }

  /* ---- verification of a buffer ---- */

  function CheckPayload<S>(h: Hasher<S>, header: Header, bytes: Bytes): Result<Verified, Error>
    requires |bytes| >= HEADER_SIZE
  {
    var computed := Digest(h, bytes[HEADER_SIZE..]);
    if computed != header.checksum then Err(ChecksumMismatch(header.checksum, computed))
    else Ok(Verified(header, bytes))
  }

  function VerifyBytes<S>(h: Hasher<S>, bytes: Bytes): Result<Verified, Error> {
    if |bytes| < HEADER_SIZE then Err(TooSmall(|bytes|))
    else if |bytes| > HEADER_SIZE + MAX_PAYLOAD_SIZE then Err(PayloadTooLarge(|bytes| - HEADER_SIZE))
    else
      var header := ParseHeader(bytes[..HEADER_SIZE]);
      if ValidateHeader(header).Some? then Err(ValidateHeader(header).value)
      else CheckPayload(h, header, bytes)
  }

  /** A frame splits back into the canonical header and the payload. */
  lemma FrameParts<S(!new)>(h: Hasher<S>, payload: Bytes)
    requires Lawful(h)
    ensures |Frame(h, payload)| == HEADER_SIZE + |payload|
    ensures Frame(h, payload)[HEADER_SIZE..] == payload
    ensures ParseHeader(Frame(h, payload)[..HEADER_SIZE]) == CanonicalHeader(Digest(h, payload))
  {
    var header := CanonicalHeader(Digest(h, payload));
    HeaderRoundTrip(header);
    assert Frame(h, payload)[..HEADER_SIZE] == SerializeHeader(header);
  }

  lemma ValidHeaderIsCanonical(header: Header)
    requires |header.reserved| == 20
    ensures ValidateHeader(header).None? <==> header == CanonicalHeader(header.checksum)
  {
    if ValidateHeader(header).None? {
      assert header.reserved == Zeros(20);
    }
  }

  /** Verification accepts exactly what the encoder writes: the frame of a payload of at most 100 MiB,
      which is then the rest of the buffer and the only such payload. */
  lemma AcceptsExactlyFrames<S(!new)>(h: Hasher<S>, bytes: Bytes)
    requires Lawful(h)
    ensures VerifyBytes(h, bytes).Ok? <==>
            HEADER_SIZE <= |bytes| <= HEADER_SIZE + MAX_PAYLOAD_SIZE && bytes == Frame(h, bytes[HEADER_SIZE..])
    ensures forall p :: bytes == Frame(h, p) ==> |bytes| >= HEADER_SIZE && p == bytes[HEADER_SIZE..]
  {
    forall p | bytes == Frame(h, p) ensures |bytes| >= HEADER_SIZE && p == bytes[HEADER_SIZE..] {
      FrameParts(h, p);
    }
    if HEADER_SIZE <= |bytes| <= HEADER_SIZE + MAX_PAYLOAD_SIZE {
      var payload, parsed := bytes[HEADER_SIZE..], ParseHeader(bytes[..HEADER_SIZE]);
      FrameParts(h, payload);
      ValidHeaderIsCanonical(parsed);
      var frame := Frame(h, payload);
      ParseHeaderInjective(bytes[..HEADER_SIZE], frame[..HEADER_SIZE]);
      assert bytes == bytes[..HEADER_SIZE] + payload;
      assert frame == frame[..HEADER_SIZE] + frame[HEADER_SIZE..];
    }
  }

  /** The container, byte by byte: what verification asks of a buffer, and the first complaint it makes. */
  lemma AcceptsExactlyBytes<S>(h: Hasher<S>, bytes: Bytes)
    ensures VerifyBytes(h, bytes).Ok? <==>
            && 64 <= |bytes| <= 64 + 104857600
            && bytes[0..4] == [0x50, 0x41, 0x56, 0x53]
            && bytes[4..8] == [0, 0, 0, 0]
            && bytes[8..12] == [1, 0, 0, 0]
            && bytes[12..44] == h.finalize(h.update(h.init, bytes[64..]))
            && forall i | 44 <= i < 64 :: bytes[i] == 0
    ensures VerifyBytes(h, bytes).Ok? ==> VerifyBytes(h, bytes).value.bytes == bytes
  {
    if 64 <= |bytes| <= 64 + 104857600 { HeaderBytes(bytes[..64]); SlicesOfHeader(bytes); }
  }

  /** The complaints in order, each with what it reports. */
  lemma FirstComplaint<S>(h: Hasher<S>, bytes: Bytes)
    ensures var r := VerifyBytes(h, bytes);
            if |bytes| < 64 then r == Err(TooSmall(|bytes|))
            else if |bytes| > 64 + 104857600 then r == Err(PayloadTooLarge(|bytes| - 64))
            else if bytes[0..4] != [0x50, 0x41, 0x56, 0x53] then r == Err(InvalidMagic(bytes[0..4]))
            else if bytes[4..8] != [0, 0, 0, 0] then r == Err(VersionMismatch(U32FromLe(bytes[4..8])))
            else if exists i :: 44 <= i < 64 && bytes[i] != 0 then r == Err(NonZeroReservedBytes)
            else if bytes[8..12] != [1, 0, 0, 0] then r == Err(UnsupportedAlgorithm(U32FromLe(bytes[8..12])))
            else
              var computed := h.finalize(h.update(h.init, bytes[64..]));
              bytes[12..44] != computed ==> r == Err(ChecksumMismatch(bytes[12..44], computed))
  {
    if 64 <= |bytes| <= 64 + 104857600 { HeaderBytes(bytes[..64]); SlicesOfHeader(bytes); }
  }

  lemma HeaderBytes(buf: Bytes)
    requires |buf| == 64
    ensures var p := ParseHeader(buf);
            && p.magic == buf[0..4] && p.checksum == buf[12..44]
            && (p.version == 0 <==> buf[4..8] == [0, 0, 0, 0])
            && (p.algorithm == 1 <==> buf[8..12] == [1, 0, 0, 0])
            && (AllZero(p.reserved) <==> forall i | 44 <= i < 64 :: buf[i] == 0)
  {
    U32Injective(buf[4..8], [0, 0, 0, 0]);
    U32Injective(buf[8..12], [1, 0, 0, 0]);
    if AllZero(buf[44..64]) {
      forall i | 44 <= i < 64 ensures buf[i] == 0 { assert buf[44..64][i - 44] == 0; }
    }
  }

  lemma SlicesOfHeader(bytes: Bytes)
    requires |bytes| >= 64
    ensures var buf := bytes[..64];
            && buf[0..4] == bytes[0..4] && buf[4..8] == bytes[4..8] && buf[8..12] == bytes[8..12]
            && buf[12..44] == bytes[12..44] && forall i | 44 <= i < 64 :: buf[i] == bytes[i]
  {
  }

  /* ---- damage ---- */

  /** A frame with one header byte replaced. */
  ghost predicate HeaderByteChanged<S(!new)>(h: Hasher<S>, payload: Bytes, i: nat, bytes: Bytes) {
    i < HEADER_SIZE && |Frame(h, payload)| >= HEADER_SIZE && exists b: Byte :: Replaced(Frame(h, payload), i, b, bytes)
  }

  ghost predicate Replaced(frame: Bytes, i: nat, b: Byte, bytes: Bytes) {
    i < |frame| && b != frame[i] && bytes == frame[i := b]
  }

  /** Any change to any single header byte is refused, with the error of the field it falls in. */
  lemma HeaderDamageIsNamed<S(!new)>(h: Hasher<S>, payload: Bytes, i: nat, bytes: Bytes)
    requires Lawful(h) && |payload| <= MAX_PAYLOAD_SIZE
    requires HeaderByteChanged(h, payload, i, bytes)
    ensures VerifyBytes(h, bytes).Err?
    ensures i < 4 ==> VerifyBytes(h, bytes).error.InvalidMagic?
    ensures 4 <= i < 8 ==> VerifyBytes(h, bytes).error.VersionMismatch?
    ensures 8 <= i < 12 ==> VerifyBytes(h, bytes).error.UnsupportedAlgorithm?
    ensures 12 <= i < 44 ==> VerifyBytes(h, bytes).error.ChecksumMismatch?
    ensures 44 <= i ==> VerifyBytes(h, bytes).error.NonZeroReservedBytes?
  {
    var frame := Frame(h, payload);
    FrameParts(h, payload);
    var f, g := frame[..HEADER_SIZE], bytes[..HEADER_SIZE];
    assert g != f && bytes[HEADER_SIZE..] == payload;
    FieldsOfDamage(f, g, i);
    assert ValidateHeader(ParseHeader(f)).None?;
  }

  /** Replacing one byte changes the one field it lies in and no other. */
  lemma FieldsOfDamage(f: Bytes, g: Bytes, i: nat)
    requires |f| == HEADER_SIZE && |g| == HEADER_SIZE && i < HEADER_SIZE
    requires f[i] != g[i] && forall k :: 0 <= k < HEADER_SIZE && k != i ==> f[k] == g[k]
    ensures var a, b := ParseHeader(f), ParseHeader(g);
            && (a.magic == b.magic <==> !(i < 4))
            && (a.version == b.version <==> !(4 <= i < 8))
            && (a.algorithm == b.algorithm <==> !(8 <= i < 12))
            && (a.checksum == b.checksum <==> !(12 <= i < 44))
            && (a.reserved == b.reserved <==> !(44 <= i))
  {
    SliceDiffers(f, g, i, 0, 4);
    SliceDiffers(f, g, i, 4, 8);
    SliceDiffers(f, g, i, 8, 12);
    SliceDiffers(f, g, i, 12, 44);
    SliceDiffers(f, g, i, 44, 64);
    U32Injective(f[4..8], g[4..8]);
    U32Injective(f[8..12], g[8..12]);
  }

  lemma SliceDiffers(f: Bytes, g: Bytes, i: nat, lo: nat, hi: nat)
    requires |f| == |g| && i < |f| && lo <= hi <= |f|
    requires f[i] != g[i] && forall k :: 0 <= k < |f| && k != i ==> f[k] == g[k]
    ensures f[lo..hi] == g[lo..hi] <==> !(lo <= i < hi)
  {
    if lo <= i < hi {
      assert f[lo..hi][i - lo] != g[lo..hi][i - lo];
    }
  }

  /** A different payload under the same header is accepted exactly when the digests collide. */
  lemma PayloadDamageNeedsCollision<S(!new)>(h: Hasher<S>, payload: Bytes, other: Bytes)
    requires Lawful(h) && |other| <= MAX_PAYLOAD_SIZE
    ensures |Frame(h, payload)| >= HEADER_SIZE
    ensures VerifyBytes(h, Frame(h, payload)[..HEADER_SIZE] + other).Ok? <==> Digest(h, other) == Digest(h, payload)
  {
    FrameParts(h, payload);
    var bytes := Frame(h, payload)[..HEADER_SIZE] + other;
    assert bytes[..HEADER_SIZE] == Frame(h, payload)[..HEADER_SIZE] && bytes[HEADER_SIZE..] == other;
    ValidHeaderIsCanonical(ParseHeader(bytes[..HEADER_SIZE]));
  }

  /* ---- verification of a file, in chunks ---- */

  /** What read number `k` returns: a failure, or how many bytes the operating system is willing to
      give; at least one of those that are left, at most the buffer. */
  type Reads = nat -> Option<nat>

  function ChunkSize(offered: nat, left: nat): nat { Min(left, Max(1, Min(offered, BUFFER_SIZE))) }

  lemma FeedChunk<S(!new)>(h: Hasher<S>, content: Bytes, pos: nat, n: nat)
    requires Lawful(h) && HEADER_SIZE <= pos && pos + n <= |content|
    ensures h.update(h.update(h.init, content[HEADER_SIZE..pos]), content[pos..pos + n])
         == h.update(h.init, content[HEADER_SIZE..pos + n])
    ensures content[..pos] + content[pos..pos + n] == content[..pos + n]
  {
    assert content[HEADER_SIZE..pos] + content[pos..pos + n] == content[HEADER_SIZE..pos + n];
  }

  datatype Streamed = Streamed(bytes: Bytes, digest: Bytes)

  /** The reading loop of `read_verified_file`: whatever the sizes of the reads, it collects the whole
      file and the digest of everything after the header, or stops at the size limit. */
  method ReadPayload<S(!new)>(h: Hasher<S>, content: Bytes, offers: Reads) returns (r: Result<Streamed, Error>)
    requires Lawful(h) && |content| >= HEADER_SIZE
    ensures r.Ok? ==> |content| - HEADER_SIZE <= MAX_PAYLOAD_SIZE
    ensures r.Ok? ==> r.value == Streamed(content, Digest(h, content[HEADER_SIZE..]))
    ensures r.Err? ==> r.error.Io? || (r.error.PayloadTooLarge? && |content| - HEADER_SIZE > MAX_PAYLOAD_SIZE)
    ensures (forall k :: offers(k).Some?) ==> r != Err(Io)
  {
    var bytes := content[..HEADER_SIZE];
    var state := h.init;
    var payloadLen, k, pos := 0, 0, HEADER_SIZE;
    assert content[HEADER_SIZE..pos] == [];
    while pos < |content|
      invariant HEADER_SIZE <= pos <= |content| && payloadLen == pos - HEADER_SIZE <= MAX_PAYLOAD_SIZE
      invariant bytes == content[..pos]
      invariant state == h.update(h.init, content[HEADER_SIZE..pos])
    {
      var offered := offers(k);
      if offered.None? { return Err(Io); }
      var n := ChunkSize(offered.value, |content| - pos);
      payloadLen := payloadLen + n;
      if payloadLen > MAX_PAYLOAD_SIZE { return Err(PayloadTooLarge(payloadLen)); }
      var chunk := content[pos..pos + n];
      FeedChunk(h, content, pos, n);
      state, bytes := h.update(state, chunk), bytes + chunk;
      pos, k := pos + n, k + 1;
    }
    if offers(k).None? { return Err(Io); }
    assert content[HEADER_SIZE..pos] == content[HEADER_SIZE..] && bytes == content;
    r := Ok(Streamed(bytes, h.finalize(state)));
  }

  /** `read_verified_file`: the length comes from the file's metadata, the contents from reads of any
      size. A file is accepted only if verification of the whole buffer accepts it; with a length in
      range all of those are accepted; and when the metadata was right, header, bytes and error are
      those of the whole buffer. A failing system call is the only other outcome: opening the file or
      reading its metadata (`opens`), the header (`headerReads`), or a chunk. */
  method ReadVerifiedFile<S(!new)>(
    h: Hasher<S>, opens: bool, headerReads: bool, fileLen: nat, content: Bytes, offers: Reads)
    returns (r: Result<Verified, Error>)
    requires Lawful(h)
    ensures r.Ok? ==> r == VerifyBytes(h, content)
    ensures HEADER_SIZE <= fileLen <= HEADER_SIZE + MAX_PAYLOAD_SIZE && r != Err(Io) ==>
              (r.Ok? <==> VerifyBytes(h, content).Ok?)
    ensures fileLen == |content| && r != Err(Io) ==> r == VerifyBytes(h, content)
    ensures !opens ==> r == Err(Io)
    ensures opens && fileLen < 64 ==> r == Err(TooSmall(fileLen))
    ensures opens && fileLen > 64 + 104857600 ==> r == Err(PayloadTooLarge(fileLen - 64))
    ensures opens && 64 <= fileLen <= 64 + 104857600 && !headerReads ==> r == Err(Io)
    ensures opens && headerReads && (forall k :: offers(k).Some?) ==> r != Err(Io)
  {
    if !opens { return Err(Io); }
    if fileLen < HEADER_SIZE { return Err(TooSmall(fileLen)); }
    if fileLen > HEADER_SIZE + MAX_PAYLOAD_SIZE { return Err(PayloadTooLarge(fileLen - HEADER_SIZE)); }
    if !headerReads { return Err(Io); }
    if |content| < HEADER_SIZE { return Err(TooSmall(|content|)); }
    var header := ParseHeader(content[..HEADER_SIZE]);
    var invalid := ValidateHeader(header);
    if invalid.Some? { return Err(invalid.value); }
    var payload := ReadPayload(h, content, offers);
    if payload.Err? { return Err(payload.error); }
    if payload.value.digest != header.checksum {
      return Err(ChecksumMismatch(header.checksum, payload.value.digest));
    }
    r := Ok(Verified(header, payload.value.bytes));
  }

  /* ---- configurations ---- */

  /** rkyv: serialization, the integrity check of an archive, and deserialization. */
  datatype Archive<!C> = Archive(serialize: C -> Option<Bytes>, access: Bytes -> bool, deserialize: Bytes -> Option<C>)

  ghost predicate Faithful<C(!new)>(ar: Archive<C>) {
    forall c :: ar.serialize(c).Some? ==>
      ar.access(ar.serialize(c).value) && ar.deserialize(ar.serialize(c).value) == Some(c)
  }

  function EncodeConfig<S, C>(h: Hasher<S>, ar: Archive<C>, c: C): Result<Bytes, Error> {
    if ar.serialize(c).None? then Err(Serialization) else Ok(Frame(h, ar.serialize(c).value))
  }

  /** `load`, given what reading the file yields. */
  function LoadConfig<S, C>(h: Hasher<S>, ar: Archive<C>, bytes: Bytes): Result<C, Error> {
    match VerifyBytes(h, bytes)
    case Err(e) => Err(e)
    case Ok(v) =>
      if |bytes| < HEADER_SIZE || !ar.access(bytes[HEADER_SIZE..]) then Err(CorruptArchive)
      else if ar.deserialize(bytes[HEADER_SIZE..]).None? then Err(CorruptArchive)
      else Ok(ar.deserialize(bytes[HEADER_SIZE..]).value)
  }

  /** A buffer loads as a configuration exactly when it verifies and its payload passes the archive's own check and
      deserializes to it; a verified buffer that does not is a corrupt archive. */
  lemma LoadsExactlyWhen<S(!new), C(!new)>(h: Hasher<S>, ar: Archive<C>, bytes: Bytes, c: C)
    ensures LoadConfig(h, ar, bytes) == Ok(c) <==>
            && VerifyBytes(h, bytes).Ok? && |bytes| >= 64
            && ar.access(bytes[64..]) && ar.deserialize(bytes[64..]) == Some(c)
    ensures LoadConfig(h, ar, bytes) == Err(CorruptArchive) <==>
            && VerifyBytes(h, bytes).Ok? && |bytes| >= 64
            && (ar.access(bytes[64..]) ==> ar.deserialize(bytes[64..]) == None)
    ensures VerifyBytes(h, bytes).Err? ==> LoadConfig(h, ar, bytes) == Err(VerifyBytes(h, bytes).error)
  {
    if VerifyBytes(h, bytes).Ok? { AcceptsExactlyBytes(h, bytes); } else { FirstComplaint(h, bytes); }
  }

  /** Loading undoes encoding, except that the encoder sets no limit on the size and the loader does:
      the round trip holds exactly for archives of at most 100 MiB. */
  lemma LoadUndoesEncode<S(!new), C(!new)>(h: Hasher<S>, ar: Archive<C>, c: C)
    requires Lawful(h) && Faithful(ar) && EncodeConfig(h, ar, c).Ok?
    ensures LoadConfig(h, ar, EncodeConfig(h, ar, c).value) == Ok(c) <==> |ar.serialize(c).value| <= MAX_PAYLOAD_SIZE
    ensures |ar.serialize(c).value| > MAX_PAYLOAD_SIZE ==>
              LoadConfig(h, ar, EncodeConfig(h, ar, c).value) == Err(PayloadTooLarge(|ar.serialize(c).value|))
  {
    var payload := ar.serialize(c).value;
    FrameParts(h, payload);
    AcceptsExactlyFrames(h, Frame(h, payload));
  }
}
