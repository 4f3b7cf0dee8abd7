/**
 Framed codecs with a chunked reader: src/protocol.mjs, src/browser-protocol.mjs and
 src/harness-adapter-protocol.mjs. Identifiers are ASCII, so they are modelled by
 their bytes; JSON and its schemas are an arbitrary function of a frame's body.
 */
module Framing {
  import opened Sequences

  type Byte = n: nat | n < 256
  type Bytes = seq<Byte>

  const HEADER := 4
  const METADATA := 7
  const BROWSER_HEADER := 6
  const CONTROL_CHANNEL: Byte := 1
  const BULK_CHANNEL: Byte := 2
  const MAX_FRAME := 65536
  const MAX_ADAPTER_FRAME := 524288
  const MAX_DATA := 16384
  const MAX_ID := 128
  const TWO_8: nat := 256
  const TWO_16: nat := 65536
  const TWO_24: nat := 16777216
  const TWO_32: nat := 4294967296

  datatype Error =
    | Truncated | ChannelClosed | SizeInvalid | JsonInvalid | SchemaInvalid
    | ChannelInvalid | MetadataInvalid | ChunkTooLarge | FrameTooLarge | FrameInvalid | OutOfRange

  datatype Result<+T> = Ok(value: T) | Err(error: Error)

  // ------------------------------------------------------------ integers

  function U16(n: nat): Bytes
    requires n < TWO_16
  {
    var high: nat := n / TWO_8;
    var low: nat := n % TWO_8;
    [high, low]
  }

  function U32(n: nat): Bytes
    requires n < TWO_32
  {
    var a: nat := n / TWO_24;
    var b: nat := n / TWO_16 % TWO_8;
    var c: nat := n / TWO_8 % TWO_8;
    var d: nat := n % TWO_8;
    [a, b, c, d]
  }

  function ReadU16(b: Bytes, at: nat): (n: nat)
    requires at + 2 <= |b|
    ensures n < TWO_16
  {
    var high: nat, low: nat := b[at], b[at + 1];
    high * TWO_8 + low
  }

  function ReadU32(b: Bytes, at: nat): (n: nat)
    requires at + 4 <= |b|
    ensures n < TWO_32
  {
    var w: nat, x: nat, y: nat, z: nat := b[at], b[at + 1], b[at + 2], b[at + 3];
    w * TWO_24 + x * TWO_16 + y * TWO_8 + z
  }

  lemma U16Inverse(n: nat)
    requires n < TWO_16
    ensures ReadU16(U16(n), 0) == n
  {
  }

  lemma U32Inverse(n: nat)
    requires n < TWO_32
    ensures ReadU32(U32(n), 0) == n
  {
    var a, b, c := n / 256, n / 65536, n / 16777216;
    assert n == a * 256 + n % 256 && a == b * 256 + a % 256 && b == c * 256 + b % 256;
  }

  lemma Split(q: nat, r: nat)
    requires r < 256
    ensures (q * 256 + r) / 256 == q && (q * 256 + r) % 256 == r
  {
  }

  lemma ReadU16Inverse(b: Bytes, at: nat)
    requires at + 2 <= |b|
    ensures U16(ReadU16(b, at)) == b[at..at + 2]
  {
    Split(b[at], b[at + 1]);
  }

  lemma ReadU32Inverse(b: Bytes, at: nat)
    requires at + 4 <= |b|
    ensures U32(ReadU32(b, at)) == b[at..at + 4]
  {
    var x: nat := b[at];
    var y: nat := x * 256 + b[at + 1];
    var z: nat := y * 256 + b[at + 2];
    var n: nat := z * 256 + b[at + 3];
    assert n == ReadU32(b, at);
    Split(z, b[at + 3]);
    Split(y, b[at + 2]);
    Split(x, b[at + 1]);
    assert n / 256 == z && n / 65536 == y && n / 16777216 == x;
  }

  // -------------------------------------------------------------- frames

  datatype Frame = Frame(id: Bytes, sequence: int, eof: bool, data: Bytes)

  /** A letter, a digit, or one of `.`, `_`, `:` and `-`. */
  predicate IdByte(b: Byte) {
    48 <= b <= 57 || 65 <= b <= 90 || 97 <= b <= 122 || b == 46 || b == 95 || b == 58 || b == 45
  }

  predicate ValidId(id: Bytes) {
    1 <= |id| <= MAX_ID && forall i :: 0 <= i < |id| ==> IdByte(id[i])
  }

  /** What both encodings can carry. */
  predicate ValidFrame(f: Frame) {
    ValidId(f.id) && 0 <= f.sequence < TWO_32 && |f.data| <= MAX_DATA
  }

  function Flag(eof: bool): Byte {
    if eof then 1 else 0
  }

  /** `writeWireFrame`: length, channel, body. */
  function Wire(channel: Byte, body: Bytes): Result<Bytes> {
    if |body| + 1 > MAX_FRAME then Err(SizeInvalid) else Ok(U32(|body| + 1) + [channel] + body)
  }

  function BulkBody(f: Frame): Bytes
    requires ValidFrame(f)
  {
    [Flag(f.eof)] + U16(|f.id|) + U32(f.sequence) + f.id + f.data
  }

  /** `writeBulkFrame`, with its errors in the order of its checks. */
  function EncodeBulk(f: Frame): Result<Bytes> {
    if !ValidId(f.id) || f.sequence < 0 then Err(MetadataInvalid)
    else if |f.data| > MAX_DATA then Err(ChunkTooLarge)
    else if f.sequence >= TWO_32 then Err(OutOfRange)
    else Wire(BULK_CHANNEL, BulkBody(f))
  }

  /** Exactly the valid frames are written; the frame limit is never the reason. */
  lemma EncodesValid(f: Frame)
    ensures EncodeBulk(f).Ok? <==> ValidFrame(f)
    ensures ValidFrame(f) <==>
      && 1 <= |f.id| <= 128 && (forall i :: 0 <= i < |f.id| ==> IdByte(f.id[i]))
      && 0 <= f.sequence < 0x1_0000_0000 && |f.data| <= 16384
    ensures ValidFrame(f) ==> |BulkBody(f)| + 1 <= MAX_FRAME
  {
  }

  /** What the schema makes of a control body. */
  datatype Control = NotJson | NotAMessage | Message(number: nat)

  datatype Received = ControlFrame(message: nat) | BulkFrame(frame: Frame)

  function DecodeBulk(body: Bytes): Result<Frame> {
    if |body| < METADATA then Err(MetadataInvalid)
    else
      var offset := METADATA + ReadU16(body, 1);
      if body[0] > 1 || offset > |body| then Err(MetadataInvalid)
      else if !ValidId(body[METADATA..offset]) then Err(MetadataInvalid)
      else if |body| - offset > MAX_DATA then Err(ChunkTooLarge)
      else Ok(Frame(body[METADATA..offset], ReadU32(body, 3), body[0] == 1, body[offset..]))
  }

  function DecodeFrame(frame: Bytes, parse: Bytes -> Control): Result<Received>
    requires frame != []
  {
    if frame[0] == CONTROL_CHANNEL then
      match parse(frame[1..])
      case NotJson => Err(JsonInvalid)
      case NotAMessage => Err(SchemaInvalid)
      case Message(number) => Ok(ControlFrame(number))
    else if frame[0] == BULK_CHANNEL then
      var decoded := DecodeBulk(frame[1..]);
      if decoded.Ok? then Ok(BulkFrame(decoded.value)) else Err(decoded.error)
    else Err(ChannelInvalid)
  }

  lemma BulkParts(f: Frame)
    requires ValidFrame(f)
    ensures var body := BulkBody(f);
      && |body| == METADATA + |f.id| + |f.data|
      && body[0] == Flag(f.eof) && body[1..3] == U16(|f.id|) && body[3..METADATA] == U32(f.sequence)
      && body[METADATA..METADATA + |f.id|] == f.id && body[METADATA + |f.id|..] == f.data
  {
  }

  lemma ReadAt(body: Bytes, at: nat)
    ensures at + 2 <= |body| ==> ReadU16(body, at) == ReadU16(body[at..at + 2], 0)
    ensures at + 4 <= |body| ==> ReadU32(body, at) == ReadU32(body[at..at + 4], 0)
  {
  }

  /** Decoding what was encoded gives the frame back. */
  lemma BulkRoundTrip(f: Frame)
    requires ValidFrame(f)
    ensures DecodeBulk(BulkBody(f)) == Ok(f)
  {
    var body := BulkBody(f);
    BulkParts(f);
    ReadAt(body, 1);
    ReadAt(body, 3);
    U16Inverse(|f.id|);
    U32Inverse(f.sequence);
  }

  /** Whatever is accepted is the encoding of the frame it decodes to. */
  lemma BulkIsCanonical(body: Bytes)
    requires DecodeBulk(body).Ok?
    ensures ValidFrame(DecodeBulk(body).value) && BulkBody(DecodeBulk(body).value) == body
  {
    var f := DecodeBulk(body).value;
    ReadU16Inverse(body, 1);
    ReadU32Inverse(body, 3);
    assert body == [body[0]] + body[1..3] + body[3..7] + body[7..7 + |f.id|] + body[7 + |f.id|..];
    assert Flag(f.eof) == body[0];
  }

  // -------------------------------------------------------------- browser

  function BrowserFrame(f: Frame): Bytes
    requires ValidFrame(f)
  {
    [|f.id|] + U32(f.sequence) + [Flag(f.eof)] + f.id + f.data
  }

  /** `encodeBrowserOpaqueFrame`. */
  function EncodeBrowser(f: Frame): Result<Bytes> {
    if !ValidId(f.id) || f.sequence < 0 then Err(MetadataInvalid)
    else if |f.data| > MAX_DATA then Err(FrameTooLarge)
    else if f.sequence >= TWO_32 then Err(OutOfRange)
    else Ok(BrowserFrame(f))
  }

  /** `decodeBrowserOpaqueFrame`. */
  function DecodeBrowser(frame: Bytes): Result<Frame> {
    if |frame| < BROWSER_HEADER then Err(MetadataInvalid)
    else
      var offset := BROWSER_HEADER + frame[0];
      if offset > |frame| || frame[5] > 1 then Err(MetadataInvalid)
      else if !ValidId(frame[BROWSER_HEADER..offset]) || |frame| - offset > MAX_DATA then Err(FrameInvalid)
      else Ok(Frame(frame[BROWSER_HEADER..offset], ReadU32(frame, 1), frame[5] == 1, frame[offset..]))
  }

  /** The two directions are inverse between valid frames and accepted bytes. */
  lemma BrowserRoundTrip(f: Frame)
    ensures EncodeBrowser(f).Ok? <==> ValidFrame(f)
    ensures ValidFrame(f) ==> DecodeBrowser(BrowserFrame(f)) == Ok(f)
  {
    if ValidFrame(f) {
      var bytes := BrowserFrame(f);
      assert bytes[1..5] == U32(f.sequence) && bytes[5] == Flag(f.eof);
      assert bytes[6..6 + |f.id|] == f.id && bytes[6 + |f.id|..] == f.data;
      ReadAt(bytes, 1);
      U32Inverse(f.sequence);
    }
  }

  lemma BrowserIsCanonical(bytes: Bytes)
    requires DecodeBrowser(bytes).Ok?
    ensures ValidFrame(DecodeBrowser(bytes).value) && EncodeBrowser(DecodeBrowser(bytes).value) == Ok(bytes)
  {
    var f := DecodeBrowser(bytes).value;
    ReadU32Inverse(bytes, 1);
    assert bytes == [bytes[0]] + bytes[1..5] + [bytes[5]] + bytes[6..6 + |f.id|] + bytes[6 + |f.id|..];
    assert Flag(f.eof) == bytes[5];
  }

  // --------------------------------------------------------------- reader

  /** One protocol's framing: its limit, and whether an end between frames has its own error. */
  datatype Limits = Limits(maximum: nat, reportsClosed: bool)

  function Ended(limits: Limits, bytes: Bytes): Error {
    if limits.reportsClosed && bytes == [] then ChannelClosed else Truncated
  }

  /** What the next read gives for all bytes to come, and what is left for the read after it. */
  function Next(limits: Limits, bytes: Bytes): (Result<Bytes>, Bytes) {
    if |bytes| < HEADER then (Err(Ended(limits, bytes)), bytes)
    else
      var length := ReadU32(bytes, 0);
      if length < 1 || length > limits.maximum then (Err(SizeInvalid), bytes)
      else if |bytes| < HEADER + length then (Err(Truncated), bytes)
      else (Ok(bytes[HEADER..HEADER + length]), bytes[HEADER + length..])
  }

  /** A stream reader: the bytes it has buffered and the chunks still to arrive, cut anywhere. */
  class Reader {
    const limits: Limits
    var buffer: Bytes
    var chunks: seq<Bytes>

    constructor (limits: Limits, chunks: seq<Bytes>)
      ensures this.limits == limits && Rest() == Concat(chunks)
    {
      this.limits, buffer, this.chunks := limits, [], chunks;
    }

    /** All bytes not yet handed out. */
    ghost function Rest(): Bytes
      reads this
    {
      buffer + Concat(chunks)
    }

    /** `fillBuffer`. */
    method Fill(count: nat) returns (filled: bool)
      modifies this
      ensures Rest() == old(Rest())
      ensures filled <==> |Rest()| >= count
      ensures if filled then |buffer| >= count else buffer == Rest()
    {
      while |buffer| < count
        invariant Rest() == old(Rest())
        decreases |chunks|
      {
        if chunks == [] { return false; }
        Regroup(buffer, chunks[0], Concat(chunks[1..]));
        buffer := buffer + chunks[0];
        chunks := chunks[1..];
      }
      return true;
    }

    static lemma Regroup(a: Bytes, b: Bytes, c: Bytes)
      ensures a + b + c == a + (b + c)
    {
    }

    /** The framing half of a read: its result depends on the bytes alone, not on the chunks. */
    method ReadFrame() returns (r: Result<Bytes>)
      modifies this
      ensures (r, Rest()) == Next(limits, old(Rest()))
    {
      ghost var bytes := Rest();
      var filled := Fill(HEADER);
      if !filled { return Err(Ended(limits, buffer)); }
      var length := ReadU32(buffer, 0);
      assert buffer == bytes[..|buffer|];
      if length < 1 || length > limits.maximum { return Err(SizeInvalid); }
      filled := Fill(HEADER + length);
      if !filled { return Err(Truncated); }
      var frame := buffer[HEADER..HEADER + length];
      assert bytes[HEADER..HEADER + length] == frame;
      assert bytes[HEADER + length..] == buffer[HEADER + length..] + Concat(chunks);
      buffer := buffer[HEADER + length..];
      return Ok(frame);
    }

    /** `readProtocolFrame`. */
    method ReadProtocolFrame(parse: Bytes -> Control) returns (r: Result<Received>)
      requires limits == Limits(MAX_FRAME, false)
      modifies this
      ensures (r, Rest()) == NextReceived(old(Rest()), parse)
    {
      var frame := ReadFrame();
      if frame.Err? { return Err(frame.error); }
      return DecodeFrame(frame.value, parse);
    }
  }

  function NextReceived(bytes: Bytes, parse: Bytes -> Control): (Result<Received>, Bytes) {
    var next := Next(Limits(MAX_FRAME, false), bytes);
    (if next.0.Ok? then DecodeFrame(next.0.value, parse) else Err(next.0.error), next.1)
  }

  /** The results of any number of reads. */
  function Reads(bytes: Bytes, parse: Bytes -> Control, count: nat): seq<Result<Received>> {
    if count == 0 then []
    else [NextReceived(bytes, parse).0] + Reads(NextReceived(bytes, parse).1, parse, count - 1)
  }

  /** However the bytes are cut into chunks, any number of reads gives the same results. */
  method ReadMany(chunks: seq<Bytes>, parse: Bytes -> Control, count: nat) returns (results: seq<Result<Received>>)
    ensures results == Reads(Concat(chunks), parse, count)
  {
    var reader := new Reader(Limits(MAX_FRAME, false), chunks);
    results := [];
    for i := 0 to count
      invariant reader.limits == Limits(MAX_FRAME, false)
      invariant results + Reads(reader.Rest(), parse, count - i) == Reads(Concat(chunks), parse, count)
    {
      ghost var left := Reads(reader.Rest(), parse, count - i);
      var r := reader.ReadProtocolFrame(parse);
      assert left == [r] + Reads(reader.Rest(), parse, count - i - 1);
      results := results + [r];
    }
  }

  /** `writeFrame`, once the message is serialized. */
  function EncodeControl(body: Bytes): Result<Bytes> {
    Wire(CONTROL_CHANNEL, body)
  }

  /** Any written channel and body are taken off the stream together, whatever they hold and whatever follows. */
  lemma WireComesFirst(channel: Byte, body: Bytes, rest: Bytes)
    ensures Wire(channel, body).Ok? <==> |body| < 65536
    ensures Wire(channel, body).Ok? ==> Wire(channel, body).value[4..] == [channel] + body
    ensures Wire(channel, body).Ok? ==>
      Next(Limits(MAX_FRAME, false), Wire(channel, body).value + rest) == (Ok([channel] + body), rest)
  {
    if |body| + 1 <= MAX_FRAME {
      var bytes := Wire(channel, body).value + rest;
      assert bytes[0..4] == U32(|body| + 1);
      ReadAt(bytes, 0);
      U32Inverse(|body| + 1);
      assert bytes[HEADER..HEADER + |body| + 1] == [channel] + body;
      assert bytes[HEADER + |body| + 1..] == rest;
    }
  }

  /**
   What a written control frame reads back as: its message, if the body parses as one;
   otherwise the error of the parse. Either way nothing after it is touched.
   */
  lemma ControlRoundTrip(body: Bytes, rest: Bytes, parse: Bytes -> Control)
    requires EncodeControl(body).Ok?
    ensures var received := NextReceived(EncodeControl(body).value + rest, parse);
      && received.1 == rest
      && received.0 == match parse(body)
           case Message(number) => Ok(ControlFrame(number))
           case NotJson => Err(JsonInvalid)
           case NotAMessage => Err(SchemaInvalid)
  {
    hide Wire, Next;
    WireComesFirst(CONTROL_CHANNEL, body, rest);
    assert ([CONTROL_CHANNEL] + body)[1..] == body;
  }

  /** Any other channel is refused, after its frame was taken. */
  lemma OtherChannelIsRefused(channel: Byte, body: Bytes, rest: Bytes, parse: Bytes -> Control)
    requires channel !in {CONTROL_CHANNEL, BULK_CHANNEL} && Wire(channel, body).Ok?
    ensures NextReceived(Wire(channel, body).value + rest, parse) == (Err(ChannelInvalid), rest)
  {
    hide Wire, Next;
    WireComesFirst(channel, body, rest);
  }

  /** One thing written: a serialized message, or a bulk frame. */
  datatype Sent = SentControl(body: Bytes) | SentBulk(frame: Frame)

  predicate Writable(sent: Sent, parse: Bytes -> Control) {
    match sent
    case SentControl(body) => |body| + 1 <= MAX_FRAME && parse(body).Message?
    case SentBulk(frame) => ValidFrame(frame)
  }

  function Write(sent: Sent): Result<Bytes> {
    match sent
    case SentControl(body) => EncodeControl(body)
    case SentBulk(frame) => EncodeBulk(frame)
  }

  function ReadBack(sent: Sent, parse: Bytes -> Control): Received
    requires Writable(sent, parse)
  {
    match sent
    case SentControl(body) => ControlFrame(parse(body).number)
    case SentBulk(frame) => BulkFrame(frame)
  }

  function Encoded(all: seq<Sent>, parse: Bytes -> Control): Bytes
    requires forall i :: 0 <= i < |all| ==> Writable(all[i], parse)
  {
    if all == [] then []
    else (if Write(all[0]).Ok? then Write(all[0]).value else []) + Encoded(all[1..], parse)
  }

  lemma SentComesFirst(sent: Sent, rest: Bytes, parse: Bytes -> Control)
    requires Writable(sent, parse)
    ensures Write(sent).Ok?
    ensures NextReceived(Write(sent).value + rest, parse) == (Ok(ReadBack(sent, parse)), rest)
  {
    hide Wire, Next, BulkBody, DecodeBulk;
    match sent
    case SentControl(body) =>
      WireComesFirst(CONTROL_CHANNEL, body, rest);
      ControlRoundTrip(body, rest, parse);
    case SentBulk(frame) =>
      EncodesValid(frame);
      WireComesFirst(BULK_CHANNEL, BulkBody(frame), rest);
      BulkRoundTrip(frame);
      assert ([BULK_CHANNEL] + BulkBody(frame))[1..] == BulkBody(frame);
  }

  /** Messages and frames written one after another are read back in order, whatever follows them. */
  lemma {:induction false} FramesReadBack(all: seq<Sent>, rest: Bytes, parse: Bytes -> Control)
    requires forall i :: 0 <= i < |all| ==> Writable(all[i], parse)
    ensures |Reads(Encoded(all, parse) + rest, parse, |all|)| == |all|
    ensures forall i :: 0 <= i < |all| ==>
      Reads(Encoded(all, parse) + rest, parse, |all|)[i] == Ok(ReadBack(all[i], parse))
  {
    hide Write, NextReceived, Writable;
    if all != [] {
      var others := Encoded(all[1..], parse) + rest;
      SentComesFirst(all[0], others, parse);
      assert Encoded(all, parse) + rest == Write(all[0]).value + others;
      FramesReadBack(all[1..], rest, parse);
    }
  }

  /** A frame is taken off the front together with its length, and nothing else. */
  lemma NextSplits(limits: Limits, bytes: Bytes)
    requires Next(limits, bytes).0.Ok?
    ensures var frame := Next(limits, bytes).0.value;
      frame != [] && |frame| <= limits.maximum && |frame| < TWO_32 && bytes == U32(|frame|) + frame + Next(limits, bytes).1
  {
    hide U32, ReadU32;
    var length := ReadU32(bytes, 0);
    ReadU32Inverse(bytes, 0);
    assert bytes == bytes[0..4] + bytes[HEADER..HEADER + length] + bytes[HEADER + length..];
  }

  /** A bulk frame read off the wire is preceded by nothing, and its encoding is all that was taken. */
  lemma ReceivedIsWritten(bytes: Bytes, parse: Bytes -> Control)
    requires NextReceived(bytes, parse).0.Ok? && NextReceived(bytes, parse).0.value.BulkFrame?
    ensures var f := NextReceived(bytes, parse).0.value.frame;
      ValidFrame(f) && EncodeBulk(f).Ok? && bytes == EncodeBulk(f).value + NextReceived(bytes, parse).1
  {
    hide DecodeBulk, BulkBody, ValidFrame, U32, Next;
    var frame := Next(Limits(MAX_FRAME, false), bytes).0.value;
    NextSplits(Limits(MAX_FRAME, false), bytes);
    BulkIsCanonical(frame[1..]);
    EncodesValid(DecodeBulk(frame[1..]).value);
    assert frame == [BULK_CHANNEL] + frame[1..];
    assert U32(|frame|) + frame == U32(|frame|) + [BULK_CHANNEL] + frame[1..];
  }

  /** `writeHarnessAdapterFrame`, once the message is serialized. */
  function EncodeAdapter(body: Bytes): Result<Bytes> {
    if |body| > MAX_ADAPTER_FRAME then Err(SizeInvalid) else Ok(U32(|body|) + body)
  }

  /** A written adapter frame is read back, unless it has no body at all. */
  lemma AdapterRoundTrip(body: Bytes, rest: Bytes)
    requires EncodeAdapter(body).Ok?
    ensures Next(Limits(MAX_ADAPTER_FRAME, true), EncodeAdapter(body).value + rest)
         == if body == [] then (Err(SizeInvalid), EncodeAdapter(body).value + rest) else (Ok(body), rest)
  {
    var bytes := EncodeAdapter(body).value + rest;
    assert bytes[0..4] == U32(|body|);
    ReadAt(bytes, 0);
    U32Inverse(|body|);
    assert bytes[HEADER..HEADER + |body|] == body && bytes[HEADER + |body|..] == rest;
  }
}
