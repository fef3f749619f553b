/**
 * Checksummed framing (`crates/aequora-codec/src/lib.rs`) and the streamed body reader that feeds
 * it (`read_bounded_body` in `crates/aequora-axum/src/lib.rs`).
 */
module Codec {
  import opened Base

  /** The ASCII bytes "AEQ1". */
  const MAGIC: Bytes := [0x41, 0x45, 0x51, 0x31]

  const HEADER_LEN := 44

  const FLAG_ZSTD: byte := 1

  type Hash = Bytes -> Bytes

  /** Digests are 32 bytes long. */
  ghost predicate Digests32(hash: Hash) {
    forall x :: |hash(x)| == 32
  }

  datatype MessageKind =
    | SyncRequest | SyncResponse | BootstrapRequest | BootstrapResponse
    | SnapshotStreamRequest | SnapshotStreamResponse | PushHint | TransportError
  {
    function Code(): byte {
      match this
      case SyncRequest => 1
      case SyncResponse => 2
      case BootstrapRequest => 3
      case BootstrapResponse => 4
      case SnapshotStreamRequest => 5
      case SnapshotStreamResponse => 6
      case PushHint => 7
      case TransportError => 8
    }
  }

  function KindOf(code: byte): Option<MessageKind> {
    match code
    case 1 => Some(SyncRequest)
    case 2 => Some(SyncResponse)
    case 3 => Some(BootstrapRequest)
    case 4 => Some(BootstrapResponse)
    case 5 => Some(SnapshotStreamRequest)
    case 6 => Some(SnapshotStreamResponse)
    case 7 => Some(PushHint)
    case 8 => Some(TransportError)
    case _ => None
  }

  datatype CodecError =
    | Truncated | Magic | UnknownKind | Length | PayloadTooLarge | Integrity | Flags | Compression | Postcard

  function Be16(x: u16): Bytes {
    [x / 256, x % 256]
  }

  function FromBe16(a: byte, b: byte): u16 {
    a * 256 + b
  }

  function Be32(x: u32): Bytes {
    Be16(x / 0x1_0000) + Be16(x % 0x1_0000)
  }

  function FromBe32(a: byte, b: byte, c: byte, d: byte): u32 {
    FromBe16(a, b) * 0x1_0000 + FromBe16(c, d)
  }

  lemma Be32RoundTrip(x: u32)
    ensures |Be32(x)| == 4
    ensures var s := Be32(x); FromBe32(s[0], s[1], s[2], s[3]) == x
  {
  }

  lemma FromBe16RoundTrip(a: byte, b: byte)
    ensures Be16(FromBe16(a, b)) == [a, b]
  {
  }

  lemma DigitsAreUnique(a: nat, b: nat, c: nat, d: nat, base: nat)
    requires b < base && d < base && a * base + b == c * base + d
    ensures a == c && b == d
  {
    if a < c {
      assert (a + 1) * base <= c * base by { MulMonotone(a + 1, base, c, base); }
    } else if c < a {
      assert (c + 1) * base <= a * base by { MulMonotone(c + 1, base, a, base); }
    }
  }

  lemma FromBe32RoundTrip(a: byte, b: byte, c: byte, d: byte)
    ensures Be32(FromBe32(a, b, c, d)) == [a, b, c, d]
  {
    var s := Be32(FromBe32(a, b, c, d));
    Be32RoundTrip(FromBe32(a, b, c, d));
    DigitsAreUnique(FromBe16(a, b), FromBe16(c, d), FromBe16(s[0], s[1]), FromBe16(s[2], s[3]), 0x1_0000);
    DigitsAreUnique(a, b, s[0], s[1], 256);
    DigitsAreUnique(c, d, s[2], s[3], 256);
  }

  /** The two numeric fields of a header are the big-endian digits of their values. */
  lemma NumericFields(frame: Bytes)
    requires |frame| >= HEADER_LEN
    ensures frame[4..6] == Be16(FromBe16(frame[4], frame[5]))
    ensures frame[8..12] == Be32(FromBe32(frame[8], frame[9], frame[10], frame[11]))
  {
    FromBe16RoundTrip(frame[4], frame[5]);
    FromBe32RoundTrip(frame[8], frame[9], frame[10], frame[11]);
    assert frame[8..12] == [frame[8], frame[9], frame[10], frame[11]];
  }

  // ---------------------------------------------------------------------------------------------
  // Frames
  // ---------------------------------------------------------------------------------------------

  datatype Frame = Frame(protocol: u16, flags: byte, kind: MessageKind, payload: Bytes)

  datatype Header = Header(protocol: u16, flags: byte, kind: MessageKind, payloadLen: u32)

  function HeaderBytes(hash: Hash, f: Frame): Bytes
    requires |f.payload| <= U32_MAX
  {
    MAGIC + Be16(f.protocol) + [f.flags, f.kind.Code()] + Be32(|f.payload|) + hash(f.payload)
  }

  function EncodeFrame(hash: Hash, f: Frame): Result<Bytes, CodecError> {
    if |f.payload| > U32_MAX then Err(PayloadTooLarge) else Ok(HeaderBytes(hash, f) + f.payload)
  }

  /** The encoder: each field is appended to the growing buffer. */
  method WriteFrame(hash: Hash, f: Frame) returns (r: Result<Bytes, CodecError>)
    ensures r == EncodeFrame(hash, f)
  {
    if |f.payload| > U32_MAX {
      return Err(PayloadTooLarge);
    }
    var buffer: Bytes := [];
    buffer := buffer + MAGIC;
    buffer := buffer + Be16(f.protocol);
    buffer := buffer + [f.flags, f.kind.Code()];
    buffer := buffer + Be32(|f.payload|);
    buffer := buffer + hash(f.payload);
    assert buffer == HeaderBytes(hash, f);
    buffer := buffer + f.payload;
    return Ok(buffer);
  }

  function InspectHeader(header: Bytes, maxPayload: nat): Result<Header, CodecError> {
    if |header| < HEADER_LEN then Err(Truncated)
    else if header[..4] != MAGIC then Err(Magic)
    else if header[6] > FLAG_ZSTD then Err(Flags)
    else if KindOf(header[7]).None? then Err(UnknownKind)
    else
      var payloadLen := FromBe32(header[8], header[9], header[10], header[11]);
      if payloadLen > maxPayload then Err(PayloadTooLarge)
      else Ok(Header(FromBe16(header[4], header[5]), header[6], KindOf(header[7]).value, payloadLen))
  }

  function DecodeFrame(hash: Hash, frame: Bytes, maxPayload: nat): Result<Frame, CodecError> {
    match InspectHeader(frame, maxPayload)
    case Err(e) => Err(e)
    case Ok(h) =>
      if |frame| != HEADER_LEN + h.payloadLen then Err(Length)
      else if hash(frame[HEADER_LEN..]) != frame[12..HEADER_LEN] then Err(Integrity)
      else Ok(Frame(h.protocol, h.flags, h.kind, frame[HEADER_LEN..]))
  }

  /** The fields of an encoded frame sit at their fixed positions. */
  lemma EncodedLayout(hash: Hash, f: Frame)
    requires Digests32(hash) && |f.payload| <= U32_MAX
    ensures var frame := HeaderBytes(hash, f) + f.payload;
            && |frame| == HEADER_LEN + |f.payload|
            && frame[..4] == MAGIC && frame[4..6] == Be16(f.protocol)
            && frame[6] == f.flags && frame[7] == f.kind.Code()
            && frame[8..12] == Be32(|f.payload|)
            && frame[12..HEADER_LEN] == hash(f.payload) && frame[HEADER_LEN..] == f.payload
  {
  }

  lemma Be16At(frame: Bytes, at: nat, x: u16)
    requires at + 2 <= |frame| && frame[at..at + 2] == Be16(x)
    ensures FromBe16(frame[at], frame[at + 1]) == x
  {
    assert frame[at..at + 2][0] == frame[at] && frame[at..at + 2][1] == frame[at + 1];
  }

  lemma Be32At(frame: Bytes, at: nat, x: u32)
    requires at + 4 <= |frame| && frame[at..at + 4] == Be32(x)
    ensures FromBe32(frame[at], frame[at + 1], frame[at + 2], frame[at + 3]) == x
  {
    var s := frame[at..at + 4];
    Be32RoundTrip(x);
    assert s[0] == frame[at] && s[1] == frame[at + 1] && s[2] == frame[at + 2] && s[3] == frame[at + 3];
  }

  /** `frame` carries the fields of `f` at their positions. */
  predicate Carries(hash: Hash, frame: Bytes, f: Frame) {
    && |frame| == HEADER_LEN + |f.payload|
    && frame[..4] == MAGIC && FromBe16(frame[4], frame[5]) == f.protocol
    && frame[6] == f.flags && KindOf(frame[7]) == Some(f.kind)
    && FromBe32(frame[8], frame[9], frame[10], frame[11]) == |f.payload|
    && frame[12..HEADER_LEN] == hash(f.payload) && frame[HEADER_LEN..] == f.payload
  }

  lemma EncodedCarries(hash: Hash, f: Frame)
    requires Digests32(hash) && |f.payload| <= U32_MAX
    ensures EncodeFrame(hash, f).Ok? && Carries(hash, EncodeFrame(hash, f).value, f)
  {
    EncodedLayout(hash, f);
    Be16At(HeaderBytes(hash, f) + f.payload, 4, f.protocol);
    Be32At(HeaderBytes(hash, f) + f.payload, 8, |f.payload|);
  }

  lemma CarriedDecodes(hash: Hash, frame: Bytes, f: Frame, maxPayload: nat)
    requires Carries(hash, frame, f)
    ensures InspectHeader(frame, maxPayload)
            == if f.flags > FLAG_ZSTD then Err(Flags)
               else if |f.payload| > maxPayload then Err(PayloadTooLarge)
               else Ok(Header(f.protocol, f.flags, f.kind, |f.payload|))
    ensures DecodeFrame(hash, frame, maxPayload) == Ok(f) <==> f.flags <= FLAG_ZSTD && |f.payload| <= maxPayload
    ensures f.flags > FLAG_ZSTD || |f.payload| > maxPayload ==> DecodeFrame(hash, frame, maxPayload).Err?
  {
  }

  /** Encoding then decoding returns the same fields exactly when the flags are known and the payload fits. */
  lemma DecodeUndoesEncode(hash: Hash, f: Frame, maxPayload: nat)
    requires Digests32(hash) && |f.payload| <= U32_MAX
    ensures DecodeFrame(hash, EncodeFrame(hash, f).value, maxPayload) == Ok(f)
            <==> f.flags <= FLAG_ZSTD && |f.payload| <= maxPayload
  {
    EncodedCarries(hash, f);
    CarriedDecodes(hash, EncodeFrame(hash, f).value, f, maxPayload);
  }

  /** A frame is determined by its fields. */
  lemma FieldsDetermineFrame(a: Bytes, b: Bytes)
    requires |a| == |b| >= HEADER_LEN
    requires a[..4] == b[..4] && a[4..6] == b[4..6] && a[6] == b[6] && a[7] == b[7] && a[8..12] == b[8..12]
    requires a[12..HEADER_LEN] == b[12..HEADER_LEN] && a[HEADER_LEN..] == b[HEADER_LEN..]
    ensures a == b
  {
    forall i | 0 <= i < |a| ensures a[i] == b[i] {
      if i < 4 {
        assert a[..4][i] == b[..4][i];
      } else if 4 <= i < 6 {
        assert a[4..6][i - 4] == b[4..6][i - 4];
      } else if 8 <= i < 12 {
        assert a[8..12][i - 8] == b[8..12][i - 8];
      } else if 12 <= i < HEADER_LEN {
        assert a[12..HEADER_LEN][i - 12] == b[12..HEADER_LEN][i - 12];
      } else if i >= HEADER_LEN {
        assert a[HEADER_LEN..][i - HEADER_LEN] == b[HEADER_LEN..][i - HEADER_LEN];
      }
    }
  }

  lemma KindRoundTrip(code: byte)
    requires KindOf(code).Some?
    ensures KindOf(code).value.Code() == code
  {
  }

  /** Canonical: every accepted frame is the encoding of what it decodes to. */
  lemma EncodeUndoesDecode(hash: Hash, frame: Bytes, maxPayload: nat)
    requires Digests32(hash) && DecodeFrame(hash, frame, maxPayload).Ok?
    ensures EncodeFrame(hash, DecodeFrame(hash, frame, maxPayload).value) == Ok(frame)
  {
    var f := DecodeFrame(hash, frame, maxPayload).value;
    EncodedLayout(hash, f);
    KindRoundTrip(frame[7]);
    NumericFields(frame);
    FieldsDetermineFrame(HeaderBytes(hash, f) + f.payload, frame);
  }

  /** No accepted frame is a proper prefix of another. */
  lemma FramesArePrefixFree(hash: Hash, a: Bytes, b: Bytes, maxA: nat, maxB: nat)
    requires DecodeFrame(hash, a, maxA).Ok? && DecodeFrame(hash, b, maxB).Ok? && a <= b
    ensures a == b
  {
    assert a[8] == b[8] && a[9] == b[9] && a[10] == b[10] && a[11] == b[11];
  }

  // ---------------------------------------------------------------------------------------------
  // Typed values and compression
  // ---------------------------------------------------------------------------------------------

  /** Foreign code, kept abstract: Postcard for one type, zstd, and BLAKE3. */
  datatype Wire<!T> = Wire(
    serialize: T -> Option<Bytes>, deserialize: Bytes -> Option<T>,
    compress: (Bytes, int) -> Option<Bytes>, expand: Bytes -> Option<Bytes>, hash: Hash)

  ghost predicate Lossless<T(!new)>(w: Wire<T>) {
    && Digests32(w.hash)
    && (forall v :: w.serialize(v).Some? ==> w.deserialize(w.serialize(v).value) == Some(v))
    && (forall b, level :: w.compress(b, level).Some? ==> w.expand(w.compress(b, level).value) == Some(b))
  }

  lemma ExpandUndoesCompress<T(!new)>(w: Wire<T>, b: Bytes, level: int)
    requires Lossless(w) && w.compress(b, level).Some?
    ensures w.expand(w.compress(b, level).value) == Some(b)
  {
  }

  /** `level` is the negotiated zstd level, if any. */
  datatype EncodeOptions = EncodeOptions(level: Option<int>, threshold: nat)

  function CompressPayload<T>(w: Wire<T>, payload: Bytes, options: EncodeOptions): Result<(byte, Bytes), CodecError> {
    if options.level.None? || |payload| < options.threshold then Ok((0, payload))
    else match w.compress(payload, options.level.value)
      case None => Err(Compression)
      case Some(compressed) => if |compressed| < |payload| then Ok((FLAG_ZSTD, compressed)) else Ok((0, payload))
  }

  function EncodeValue<T>(w: Wire<T>, protocol: u16, kind: MessageKind, value: T, options: EncodeOptions)
    : Result<Bytes, CodecError>
  {
    match w.serialize(value)
    case None => Err(Postcard)
    case Some(serialized) =>
      match CompressPayload(w, serialized, options)
      case Err(e) => Err(e)
      case Ok((flags, payload)) => EncodeFrame(w.hash, Frame(protocol, flags, kind, payload))
  }

  datatype DecodeLimits = DecodeLimits(maxWireBytes: nat, maxDecompressedBytes: nat)

  function DecodeWithLimits<T>(w: Wire<T>, frame: Bytes, expected: MessageKind, limits: DecodeLimits)
    : Result<(u16, T), CodecError>
  {
    match DecodeFrame(w.hash, frame, limits.maxWireBytes)
    case Err(e) => Err(e)
    case Ok(f) =>
      if f.kind != expected then Err(UnknownKind)
      else
        var payload := if f.flags == FLAG_ZSTD then w.expand(f.payload) else Some(f.payload);
        if payload.None? then Err(Compression)
        else if |payload.value| > limits.maxDecompressedBytes then Err(PayloadTooLarge)
        else match w.deserialize(payload.value)
          case None => Err(Postcard)
          case Some(value) => Ok((f.protocol, value))
  }

  /**
   * A value survives the wire, compressed or not, exactly when its wire payload and its serialized
   * form are within the receiver's two limits.
   */
  lemma ValueRoundTrip<T(!new)>(
    w: Wire<T>, protocol: u16, kind: MessageKind, value: T, options: EncodeOptions, limits: DecodeLimits)
    requires Lossless(w) && EncodeValue(w, protocol, kind, value, options).Ok?
    ensures var frame := EncodeValue(w, protocol, kind, value, options).value;
            DecodeWithLimits(w, frame, kind, limits) == Ok((protocol, value))
            <==> && |frame| <= HEADER_LEN + limits.maxWireBytes
                 && |w.serialize(value).value| <= limits.maxDecompressedBytes
  {
    var serialized := w.serialize(value).value;
    var (flags, payload) := CompressPayload(w, serialized, options).value;
    var f := Frame(protocol, flags, kind, payload);
    EncodedLayout(w.hash, f);
    if |payload| > limits.maxWireBytes {
      OversizedIsRefused(w.hash, f, limits.maxWireBytes);
    } else {
      DecodeUndoesEncode(w.hash, f, limits.maxWireBytes);
      if flags == FLAG_ZSTD {
        ExpandUndoesCompress(w, serialized, options.level.value);
      } else {
        assert payload == serialized;
      }
      assert w.deserialize(serialized) == Some(value);
      var frame := EncodeValue(w, protocol, kind, value, options).value;
      assert DecodeFrame(w.hash, frame, limits.maxWireBytes) == Ok(f);
    }
  }

  lemma OversizedIsRefused(hash: Hash, f: Frame, maxPayload: nat)
    requires Digests32(hash) && maxPayload < |f.payload| <= U32_MAX
    ensures DecodeFrame(hash, EncodeFrame(hash, f).value, maxPayload).Err?
  {
    EncodedCarries(hash, f);
    CarriedDecodes(hash, EncodeFrame(hash, f).value, f, maxPayload);
  }
}

/** Reading a framed request body that arrives in pieces. */
module BodyReader {
  import opened Base
  import opened Codec

  /** One piece of an HTTP body: data, something else such as trailers, or a read failure. */
  datatype Piece = Data(bytes: Bytes) | Other | Broken

  datatype HttpError = BodyTooLarge | BadCodec | BadRequest

  /** Everything the pieces carry. */
  function Whole(pieces: seq<Piece>): Bytes {
    if pieces == [] then []
    else (if pieces[0].Data? then pieces[0].bytes else []) + Whole(pieces[1..])
  }

  predicate Intact(pieces: seq<Piece>) {
    forall i :: 0 <= i < |pieces| ==> !pieces[i].Broken?
  }

  /** The decision on a complete body, without any notion of pieces. */
  predicate BodyOk(body: Bytes, maxBytes: nat) {
    && HEADER_LEN <= |body| <= maxBytes
    && InspectHeader(body[..HEADER_LEN], maxBytes - HEADER_LEN).Ok?
    && |body| == HEADER_LEN + InspectHeader(body[..HEADER_LEN], maxBytes - HEADER_LEN).value.payloadLen
  }

  /** What one data piece leads to: the grown buffer with the expected total, or an error. */
  function Absorb(buffer: Bytes, expected: Option<nat>, data: Bytes, maxBytes: nat)
    : Result<(Bytes, Option<nat>), HttpError>
    requires HEADER_LEN <= maxBytes
  {
    var grown := buffer + data;
    if |grown| > maxBytes then Err(BodyTooLarge)
    else if expected.Some? || |grown| < HEADER_LEN then
      if expected.Some? && |grown| > expected.value then Err(BadCodec) else Ok((grown, expected))
    else match InspectHeader(grown[..HEADER_LEN], maxBytes - HEADER_LEN)
      case Err(PayloadTooLarge) => Err(BodyTooLarge)
      case Err(_) => Err(BadCodec)
      case Ok(h) =>
        var total: nat := HEADER_LEN + h.payloadLen;
        if |grown| > total then Err(BadCodec) else Ok((grown, Some(total)))
  }

  function ReadFrom(pieces: seq<Piece>, buffer: Bytes, expected: Option<nat>, maxBytes: nat): Result<Bytes, HttpError>
    requires HEADER_LEN <= maxBytes
    decreases |pieces|
  {
    if pieces == [] then if expected == Some(|buffer|) then Ok(buffer) else Err(BadCodec)
    else match pieces[0]
      case Broken => Err(BadRequest)
      case Other => ReadFrom(pieces[1..], buffer, expected, maxBytes)
      case Data(data) =>
        match Absorb(buffer, expected, data, maxBytes)
        case Err(e) => Err(e)
        case Ok((grown, total)) => ReadFrom(pieces[1..], grown, total, maxBytes)
  }

  function Read(pieces: seq<Piece>, maxBytes: nat): Result<Bytes, HttpError> {
    if maxBytes < HEADER_LEN then Err(BodyTooLarge) else ReadFrom(pieces, [], None, maxBytes)
  }

  /** `read_bounded_body`. */
  method ReadBoundedBody(pieces: seq<Piece>, maxBytes: nat) returns (r: Result<Bytes, HttpError>)
    ensures r == Read(pieces, maxBytes)
  {
    if maxBytes < HEADER_LEN {
      return Err(BodyTooLarge);
    }
    var buffer: Bytes := [];
    var expected: Option<nat> := None;
    var i := 0;
    while i < |pieces|
      invariant 0 <= i <= |pieces|
      invariant ReadFrom(pieces, [], None, maxBytes) == ReadFrom(pieces[i..], buffer, expected, maxBytes)
    {
      assert pieces[i..][0] == pieces[i] && pieces[i..][1..] == pieces[i + 1..];
      if pieces[i].Broken? {
        return Err(BadRequest);
      }
      if pieces[i].Data? {
        var data := pieces[i].bytes;
        if |buffer| + |data| > maxBytes {
          return Err(BodyTooLarge);
        }
        buffer := buffer + data;
        if expected.None? && |buffer| >= HEADER_LEN {
          var header := InspectHeader(buffer[..HEADER_LEN], maxBytes - HEADER_LEN);
          if header.Err? {
            return Err(if header.error == PayloadTooLarge then BodyTooLarge else BadCodec);
          }
          expected := Some(HEADER_LEN + header.value.payloadLen);
        }
        if expected.Some? && |buffer| > expected.value {
          return Err(BadCodec);
        }
      }
      i := i + 1;
    }
    assert pieces[i..] == [];
    if expected != Some(|buffer|) {
      return Err(BadCodec);
    }
    return Ok(buffer);
  }

  // ---------------------------------------------------------------------------------------------
  // Fragmentation
  // ---------------------------------------------------------------------------------------------

  /** The expected total is known exactly when a whole header has been read, and comes from it. */
  predicate Consistent(buffer: Bytes, expected: Option<nat>, maxBytes: nat) {
    && HEADER_LEN <= maxBytes && |buffer| <= maxBytes
    && if |buffer| < HEADER_LEN then expected.None?
       else
         var h := InspectHeader(buffer[..HEADER_LEN], maxBytes - HEADER_LEN);
         h.Ok? && expected == Some(HEADER_LEN + h.value.payloadLen) && |buffer| <= expected.value
  }

  lemma AbsorbDecides(buffer: Bytes, expected: Option<nat>, data: Bytes, rest: Bytes, maxBytes: nat)
    requires Consistent(buffer, expected, maxBytes)
    ensures match Absorb(buffer, expected, data, maxBytes)
            case Err(_) => !BodyOk(buffer + data + rest, maxBytes)
            case Ok((grown, total)) => grown == buffer + data && Consistent(grown, total, maxBytes)
  {
    var grown := buffer + data;
    if |buffer| >= HEADER_LEN {
      assert grown[..HEADER_LEN] == buffer[..HEADER_LEN];
    }
    if |grown| >= HEADER_LEN {
      assert (grown + rest)[..HEADER_LEN] == grown[..HEADER_LEN];
    }
  }

  lemma {:induction false} ReadFromDecides(pieces: seq<Piece>, buffer: Bytes, expected: Option<nat>, maxBytes: nat)
    requires Consistent(buffer, expected, maxBytes)
    ensures ReadFrom(pieces, buffer, expected, maxBytes).Ok? <==>
            Intact(pieces) && BodyOk(buffer + Whole(pieces), maxBytes)
    ensures ReadFrom(pieces, buffer, expected, maxBytes).Ok? ==>
              ReadFrom(pieces, buffer, expected, maxBytes).value == buffer + Whole(pieces)
    decreases |pieces|
  {
    if pieces == [] {
      assert buffer + Whole(pieces) == buffer;
    } else {
      var rest := Whole(pieces[1..]);
      assert Intact(pieces) <==> !pieces[0].Broken? && Intact(pieces[1..]) by {
        assert pieces == [pieces[0]] + pieces[1..];
      }
      match pieces[0]
      case Broken =>
      case Other =>
        assert Whole(pieces) == rest;
        ReadFromDecides(pieces[1..], buffer, expected, maxBytes);
      case Data(data) =>
        AbsorbDecides(buffer, expected, data, rest, maxBytes);
        assert buffer + Whole(pieces) == buffer + data + rest;
        var absorbed := Absorb(buffer, expected, data, maxBytes);
        if absorbed.Ok? {
          ReadFromDecides(pieces[1..], absorbed.value.0, absorbed.value.1, maxBytes);
        }
    }
  }

  /**
   * Fragmentation independence: however the body is cut, reading succeeds exactly when nothing
   * broke and the whole body is within the limit with a valid header and the exact declared length;
   * then the result is the whole body.
   */
  lemma ReadDependsOnWholeOnly(pieces: seq<Piece>, maxBytes: nat)
    ensures Read(pieces, maxBytes).Ok? <==> Intact(pieces) && BodyOk(Whole(pieces), maxBytes)
    ensures Read(pieces, maxBytes).Ok? ==> Read(pieces, maxBytes).value == Whole(pieces)
  {
    if maxBytes >= HEADER_LEN {
      ReadFromDecides(pieces, [], None, maxBytes);
      assert [] + Whole(pieces) == Whole(pieces);
    }
  }

  /** After a successful read, decoding the frame can fail only on integrity. */
  lemma OnlyIntegrityCanFail(hash: Hash, pieces: seq<Piece>, maxBytes: nat)
    requires Read(pieces, maxBytes).Ok?
    ensures var r := DecodeFrame(hash, Read(pieces, maxBytes).value, maxBytes - HEADER_LEN);
            r.Ok? || r == Err(Integrity)
  {
    ReadDependsOnWholeOnly(pieces, maxBytes);
    var body := Whole(pieces);
    assert body[..HEADER_LEN][..4] == body[..4];
  }

  /** An encoded frame that fits is read back whole and decodes, however it is cut. */
  lemma EncodedFrameIsRead(hash: Hash, f: Frame, pieces: seq<Piece>, maxBytes: nat)
    requires Digests32(hash) && |f.payload| <= U32_MAX && f.flags <= FLAG_ZSTD
    requires Intact(pieces) && Ok(Whole(pieces)) == EncodeFrame(hash, f)
    ensures Read(pieces, maxBytes).Ok? <==> HEADER_LEN + |f.payload| <= maxBytes
    ensures Read(pieces, maxBytes).Ok? ==>
              DecodeFrame(hash, Read(pieces, maxBytes).value, maxBytes - HEADER_LEN) == Ok(f)
  {
    ReadDependsOnWholeOnly(pieces, maxBytes);
    EncodedLayout(hash, f);
    var body := Whole(pieces);
    if HEADER_LEN + |f.payload| <= maxBytes {
      DecodeUndoesEncode(hash, f, maxBytes - HEADER_LEN);
      assert body[..HEADER_LEN][..4] == body[..4];
    }
  }

  // ---------------------------------------------------------------------------------------------
  // Errors
  // ---------------------------------------------------------------------------------------------

  function HeaderOf(body: Bytes, maxBytes: nat): Result<Header, CodecError>
    requires HEADER_LEN <= |body| && HEADER_LEN <= maxBytes
  {
    InspectHeader(body[..HEADER_LEN], maxBytes - HEADER_LEN)
  }

  /** The result for a body that arrives in one piece. */
  function Verdict(body: Bytes, maxBytes: nat): Result<Bytes, HttpError> {
    if maxBytes < HEADER_LEN || |body| > maxBytes then Err(BodyTooLarge)
    else if |body| < HEADER_LEN then Err(BadCodec)
    else match HeaderOf(body, maxBytes)
      case Err(PayloadTooLarge) => Err(BodyTooLarge)
      case Err(_) => Err(BadCodec)
      case Ok(h) => if |body| == HEADER_LEN + h.payloadLen then Ok(body) else Err(BadCodec)
  }

  lemma OnePiece(body: Bytes, maxBytes: nat)
    ensures Read([Data(body)], maxBytes) == Verdict(body, maxBytes)
    ensures Intact([Data(body)]) && Whole([Data(body)]) == body
  {
    var one := [Data(body)];
    assert one[1..] == [] && [] + body == body;
    if maxBytes >= HEADER_LEN {
      var absorbed := Absorb([], None, body, maxBytes);
      assert ReadFrom(one, [], None, maxBytes)
          == if absorbed.Err? then Err(absorbed.error)
             else ReadFrom([], absorbed.value.0, absorbed.value.1, maxBytes);
    }
  }

  /**
   * No part of the body can arrive that is malformed without being too large: the body is within
   * the limit, or its header already declares too much, or declares exactly the limit.
   */
  predicate CutCannotShow(body: Bytes, maxBytes: nat) {
    || maxBytes < HEADER_LEN
    || |body| <= maxBytes
    || HeaderOf(body, maxBytes) == Err(PayloadTooLarge)
    || (HeaderOf(body, maxBytes).Ok? && HEADER_LEN + HeaderOf(body, maxBytes).value.payloadLen == maxBytes)
  }

  lemma AbsorbReports(buffer: Bytes, expected: Option<nat>, data: Bytes, rest: Bytes, maxBytes: nat)
    requires Consistent(buffer, expected, maxBytes) && CutCannotShow(buffer + data + rest, maxBytes)
    requires Absorb(buffer, expected, data, maxBytes).Err?
    ensures Verdict(buffer + data + rest, maxBytes) == Err(Absorb(buffer, expected, data, maxBytes).error)
  {
    var grown := buffer + data;
    if |buffer| >= HEADER_LEN {
      assert grown[..HEADER_LEN] == buffer[..HEADER_LEN];
    }
    if |grown| >= HEADER_LEN {
      assert (grown + rest)[..HEADER_LEN] == grown[..HEADER_LEN];
    }
  }

  lemma {:induction false} ReadFromReports(pieces: seq<Piece>, buffer: Bytes, expected: Option<nat>, maxBytes: nat)
    requires Consistent(buffer, expected, maxBytes) && Intact(pieces)
    requires CutCannotShow(buffer + Whole(pieces), maxBytes)
    ensures ReadFrom(pieces, buffer, expected, maxBytes) == Verdict(buffer + Whole(pieces), maxBytes)
    decreases |pieces|
  {
    if pieces == [] {
      assert buffer + Whole(pieces) == buffer;
    } else {
      var rest := Whole(pieces[1..]);
      if pieces[0].Other? {
        assert Whole(pieces) == rest;
        ReadFromReports(pieces[1..], buffer, expected, maxBytes);
      } else {
        var data := pieces[0].bytes;
        assert buffer + Whole(pieces) == buffer + data + rest;
        AbsorbDecides(buffer, expected, data, rest, maxBytes);
        var absorbed := Absorb(buffer, expected, data, maxBytes);
        if absorbed.Err? {
          AbsorbReports(buffer, expected, data, rest, maxBytes);
        } else {
          ReadFromReports(pieces[1..], absorbed.value.0, absorbed.value.1, maxBytes);
        }
      }
    }
  }

  /** An oversized body whose first part alone is malformed is reported as malformed. */
  lemma FirstPartShows(head: Bytes, tail: Bytes, maxBytes: nat)
    requires HEADER_LEN <= |head| <= maxBytes
    requires var h := HeaderOf(head, maxBytes);
             if h.Ok? then |head| > HEADER_LEN + h.value.payloadLen else h.error != PayloadTooLarge
    ensures Read([Data(head), Data(tail)], maxBytes) == Err(BadCodec)
    ensures Intact([Data(head), Data(tail)]) && Whole([Data(head), Data(tail)]) == head + tail
  {
    var two := [Data(head), Data(tail)];
    assert two[1..] == [Data(tail)] && two[1..][1..] == [];
    assert [] + head == head;
    OnePiece(tail, maxBytes);
  }

  /** How far an oversized body must be read to see that it is malformed. */
  function ShowingPrefix(body: Bytes, maxBytes: nat): (n: nat)
    requires !CutCannotShow(body, maxBytes)
    ensures HEADER_LEN <= n <= maxBytes < |body|
  {
    match HeaderOf(body, maxBytes)
    case Err(_) => HEADER_LEN
    case Ok(h) => HEADER_LEN + h.payloadLen + 1
  }

  /** Every cut of the body leads to the same result, error included. */
  ghost predicate CutIsIrrelevant(body: Bytes, maxBytes: nat) {
    forall pieces :: Intact(pieces) && Whole(pieces) == body ==> Read(pieces, maxBytes) == Read([Data(body)], maxBytes)
  }

  /**
   * The result, error included, is the same for every cut of a body if and only if no part of it
   * can show that it is malformed before it is too large.
   */
  lemma ErrorDependsOnCutIff(body: Bytes, maxBytes: nat)
    ensures CutIsIrrelevant(body, maxBytes) <==> CutCannotShow(body, maxBytes)
  {
    OnePiece(body, maxBytes);
    if CutCannotShow(body, maxBytes) {
      forall pieces | Intact(pieces) && Whole(pieces) == body
        ensures Read(pieces, maxBytes) == Read([Data(body)], maxBytes)
      {
        if maxBytes >= HEADER_LEN {
          assert [] + Whole(pieces) == body;
          ReadFromReports(pieces, [], None, maxBytes);
        }
      }
    } else {
      var n := ShowingPrefix(body, maxBytes);
      var head, tail := body[..n], body[n..];
      assert head[..HEADER_LEN] == body[..HEADER_LEN] && head + tail == body;
      FirstPartShows(head, tail, maxBytes);
    }
  }

  function Repeated(n: nat): Bytes {
    seq(n, _ => 0)
  }

  /**
   * Which error is reported does depend on the cut: an oversized body with a bad header is too
   * large when it arrives in one piece and malformed when its header arrives first.
   */
  lemma ErrorDependsOnCut(maxBytes: nat)
    requires maxBytes >= HEADER_LEN
    ensures var head, tail := Repeated(HEADER_LEN), Repeated(maxBytes);
            && Whole([Data(head + tail)]) == Whole([Data(head), Data(tail)])
            && Read([Data(head + tail)], maxBytes) == Err(BodyTooLarge)
            && Read([Data(head), Data(tail)], maxBytes) == Err(BadCodec)
  {
    var head, tail := Repeated(HEADER_LEN), Repeated(maxBytes);
    var two := [Data(head), Data(tail)];
    assert two[1..] == [Data(tail)] && two[1..][1..] == [];
    assert [Data(head + tail)][1..] == [];
    assert Whole([Data(tail)]) == tail;
    assert head[..4][0] != MAGIC[0];
  }
}
