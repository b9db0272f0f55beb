/**
  The write path from the client to the server: the client encodes write requests and frames them
  (windows/network-core/src/protocol_client.rs, transport_client.rs), the server takes the stream apart again and
  parses each request (server/internal/transport/runtime.go, server/internal/proto/session.go).
*/
module WritePath {
  import opened Common
  import opened Wire
  import opened DataPlane

  const OP_WRITE_AT: nat := 0x11
  const WRITE_BODY_HEADER: nat := 13
  const MAX_PAYLOAD: nat := 65536

  // ---------------------------------------------------------------- one request

  datatype Write = Write(session: nat, offset: nat, data: Bytes)

  datatype Request = Request(id: nat, write: Write)

  datatype ClientError = UnexpectedSessionId | InvalidWriteLength | InvalidIoLength | InvalidRequestId

  /** The fields fit their types. */
  predicate RequestFits(r: Request) {
    r.id < U64_LIMIT && r.write.session < U64_LIMIT && r.write.offset < U64_LIMIT
  }

  /** What the client sends: nonzero ids and an allowed amount of data. */
  predicate Sendable(r: Request) {
    RequestFits(r) && r.id != 0 && r.write.session != 0 && LengthOk(|r.write.data|)
  }

  function WriteBody(client: Zstd, w: Write): Bytes {
    var (code, payload) := Encoded(client, w.data);
    BigEndian(8, w.offset) + BigEndian(4, |w.data|) + [code] + payload
  }

  function RequestHeader(r: Request): Header {
    Header(PROTOCOL_VERSION, HEADER_SIZE, OP_WRITE_AT, 0, 0, 0, r.id, r.write.session)
  }

  function RequestBytes(client: Zstd, r: Request): Bytes {
    HeaderBytes(RequestHeader(r)) + WriteBody(client, r.write)
  }

  /** `WriteAtRequest::encode_request`: the checks in the order of the source, then the body filled in place. */
  method EncodeRequest(client: Zstd, r: Request) returns (result: Result<array<byte>, ClientError>)
    requires RequestFits(r)
    ensures result.Ok? <==> Sendable(r)
    ensures result.Ok? ==> result.value[..] == RequestBytes(client, r)
    ensures result == Err(UnexpectedSessionId) <==> r.write.session == 0
    ensures result == Err(InvalidWriteLength) <==> r.write.session != 0 && |r.write.data| >= U32_LIMIT
    ensures result == Err(InvalidIoLength) <==>
      r.write.session != 0 && |r.write.data| < U32_LIMIT && !LengthOk(|r.write.data|)
    ensures result == Err(InvalidRequestId) <==> r.write.session != 0 && LengthOk(|r.write.data|) && r.id == 0
  {
    if r.write.session == 0 {
      return Err(UnexpectedSessionId);
    }
    if |r.write.data| >= U32_LIMIT {
      return Err(InvalidWriteLength);
    }
    if !LengthOk(|r.write.data|) {
      return Err(InvalidIoLength);
    }
    var (code, payload) := Encoded(client, r.write.data);
    var body := new byte[WRITE_BODY_HEADER + |payload|](_ => 0);
    FillBody(body, r.write, code, payload);
    var header := NewRequest(OP_WRITE_AT, r.id, r.write.session);
    if header.None? {
      return Err(InvalidRequestId);
    }
    var encoded := Encode(header.value, body[..]);
    result := Ok(encoded);
  }

  /** Four splices side by side. */
  lemma BodyFilled(one: Bytes, two: Bytes, three: Bytes, four: Bytes, x: Bytes, y: Bytes, code: byte, payload: Bytes)
    requires |x| == 8 && |y| == 4 && |one| == WRITE_BODY_HEADER + |payload| && one[..8] == x
    requires two == Splice(one, 8, y) && three == Splice(two, 12, [code]) && four == Splice(three, 13, payload)
    ensures four == x + y + [code] + payload
  {
  }

  method FillBody(body: array<byte>, w: Write, code: byte, payload: Bytes)
    requires body.Length == WRITE_BODY_HEADER + |payload|
    modifies body
    ensures body[..] == BigEndian(8, w.offset) + BigEndian(4, |w.data|) + [code] + payload
  {
    hide BigEndian;
    PutNumber(body, 0, 8, w.offset);
    ghost var one := body[..];
    PutNumber(body, 8, 4, |w.data|);
    ghost var two := body[..];
    PutBytes(body, 12, [code]);
    ghost var three := body[..];
    PutBytes(body, 13, payload);
    BodyFilled(one, two, three, body[..], BigEndian(8, w.offset), BigEndian(4, |w.data|), code, payload);
  }

  /** `ParseReadWriteBody`: offset, length and data. */
  function ParseWriteBody(server: Zstd, body: Bytes): Option<(nat, nat, Bytes)> {
    if |body| < WRITE_BODY_HEADER then None
    else
      var length := Number(body[8..12]);
      match GoDecode(server, body[12], body[13..], length)
      case None => None
      case Some(data) => Some((Number(body[0..8]), length, data))
  }

  datatype ServerError = BadHeader(error: HeaderError) | NotAWrite | BadBody

  /** What the server makes of a frame: header, header validation, dispatch on the operation, body. */
  function ParseRequest(server: Zstd, payload: Bytes): Result<Request, ServerError> {
    match ParseHeader(payload)
    case Err(e) => Err(BadHeader(e))
    case Ok(h) =>
      if ValidateRequestHeader(h).Some? then Err(BadHeader(ValidateRequestHeader(h).value))
      else if h.op != OP_WRITE_AT then Err(NotAWrite)
      else
        match ParseWriteBody(server, payload[HEADER_SIZE..])
        case None => Err(BadBody)
        case Some((offset, _, data)) => Ok(Request(h.requestId, Write(h.sessionId, offset, data)))
  }

  /** Where the fields of the body lie. */
  lemma BodyLayout(client: Zstd, w: Write)
    requires w.offset < U64_LIMIT && LengthOk(|w.data|)
    ensures var body := WriteBody(client, w);
      && |body| == 13 + |Encoded(client, w.data).1|
      && Number(body[0..8]) == w.offset && Number(body[8..12]) == |w.data|
      && body[12] == Encoded(client, w.data).0 && body[13..] == Encoded(client, w.data).1
  {
    BodyParts(client, w);
  }

  /** What the server takes from a frame: a header it accepts, the write operation, and a body it can decode; offset
      and length are read off their places. */
  lemma ParsedForm(server: Zstd, p: Bytes)
    ensures ParseRequest(server, p).Ok? <==>
      && |p| >= 24 + 13 && ValidateRequestHeader(ParseHeader(p).value).None? && p[2] == 0x11
      && GoDecode(server, p[36], p[37..], Number(p[32..36])).Some?
    ensures ParseRequest(server, p).Ok? ==>
      ParseRequest(server, p).value == Request(Number(p[8..16]), Write(Number(p[16..24]), Number(p[24..32]),
        GoDecode(server, p[36], p[37..], Number(p[32..36])).value))
    ensures |p| < 24 ==> ParseRequest(server, p) == Err(BadHeader(PayloadTooSmall))
    ensures |p| >= 24 && ValidateRequestHeader(ParseHeader(p).value).Some? ==>
      ParseRequest(server, p) == Err(BadHeader(ValidateRequestHeader(ParseHeader(p).value).value))
  {
    hide GoDecode, Number;
    if |p| >= 37 {
      var body := p[24..];
      assert body[0..8] == p[24..32] && body[8..12] == p[32..36] && body[12] == p[36] && body[13..] == p[37..];
    }
  }

  lemma BodyParts(client: Zstd, w: Write)
    requires w.offset < U64_LIMIT && LengthOk(|w.data|)
    ensures var body := WriteBody(client, w); var (code, payload) := Encoded(client, w.data);
      && |body| == WRITE_BODY_HEADER + |payload| && body[12] == code && body[13..] == payload
      && Number(body[0..8]) == w.offset && Number(body[8..12]) == |w.data|
  {
    hide BigEndian, Number, Encoded;
    Widths();
    var body := WriteBody(client, w);
    assert body[0..8] == BigEndian(8, w.offset) && body[8..12] == BigEndian(4, |w.data|);
    NumberOfBigEndian(8, w.offset);
    NumberOfBigEndian(4, |w.data|);
  }

  /** The server parses every request the client sends to the very same request. */
  lemma RequestRoundTrip(client: Zstd, server: Zstd, r: Request)
    requires Undoes(server, client) && Sendable(r)
    ensures ParseRequest(server, RequestBytes(client, r)) == Ok(r)
  {
    hide HeaderBytes, WriteBody, Encoded, Number, GoDecode;
    ParseOfHeader(RequestHeader(r), WriteBody(client, r.write));
    assert RequestBytes(client, r)[HEADER_SIZE..] == WriteBody(client, r.write);
    BodyParts(client, r.write);
    ToServer(client, server, r.write.data);
  }

  /** Whatever the server accepts as a write satisfies the client's rules but for one, also when no client sent it:
      the server does not refuse session 0 here, the client never sends it. */
  lemma ParsedIsSendable(server: Zstd, payload: Bytes)
    requires ParseRequest(server, payload).Ok?
    ensures var r := ParseRequest(server, payload).value;
      Sendable(r) <==> r.write.session != 0
  {
    hide HeaderBytes, Number, GoDecode;
    Widths();
    HeaderOfParse(payload);
    var body := payload[HEADER_SIZE..];
    BigEndianOfNumber(body[0..8]);
    DecodedLength(server, body[12], body[13..], Number(body[8..12]));
  }

  // ---------------------------------------------------------------- frames

  predicate FrameSizeOk(n: nat) { 1 <= n <= MAX_PAYLOAD }

  ghost predicate FrameSizesOk(payloads: seq<Bytes>) {
    forall i :: 0 <= i < |payloads| ==> FrameSizeOk(|payloads[i]|)
  }

  /** The size minus one in two bytes, then the payload. */
  function Frame(payload: Bytes): Bytes
    requires FrameSizeOk(|payload|)
  {
    BigEndian(2, |payload| - 1) + payload
  }

  /** Payloads of 1 to 65536 bytes can be framed; the two bytes in front hold the size minus one. */
  lemma FrameLayout(payload: Bytes)
    ensures FrameSizeOk(|payload|) <==> 1 <= |payload| <= 65536
    ensures FrameSizeOk(|payload|) ==>
      && |Frame(payload)| == 2 + |payload| && Number(Frame(payload)[..2]) == |payload| - 1
      && Frame(payload)[2..] == payload
  {
    if FrameSizeOk(|payload|) {
      Widths();
      NumberOfBigEndian(2, |payload| - 1);
      assert Frame(payload)[..2] == BigEndian(2, |payload| - 1);
    }
  }

  /** What a failing connection took of the frame. */
  function Taken(payload: Bytes, taken: nat): Bytes
    requires FrameSizeOk(|payload|)
  {
    Frame(payload)[..Min(taken, |Frame(payload)|)]
  }

  function Frames(payloads: seq<Bytes>): Bytes
    requires FrameSizesOk(payloads)
  {
    if payloads == [] then [] else Frame(payloads[0]) + Frames(payloads[1..])
  }

  /** How reading ends: at a frame boundary, inside a frame, or in front of a frame the buffer cannot take. */
  datatype ReadError = Eof | UnexpectedEof | BufferTooSmall

  /** One frame off the front of a stream, read into a buffer of `capacity` bytes. */
  function NextFrame(stream: Bytes, capacity: nat): (r: Result<Bytes, ReadError>)
    ensures r.Ok? ==> FrameSizeOk(|r.value|) && 2 + |r.value| <= |stream|
  {
    if stream == [] then Err(Eof)
    else if |stream| < 2 then Err(UnexpectedEof)
    else
      BigEndianOfNumber(stream[..2]);
      Widths();
      var size := Number(stream[..2]) + 1;
      if capacity < size then Err(BufferTooSmall)
      else if |stream| < 2 + size then Err(if |stream| == 2 then Eof else UnexpectedEof)
      else Ok(stream[2..2 + size])
  }

  /** The size of a frame is the number in its first two bytes plus one; the frame is read when it fits the buffer and
      is all there, and the error tells which of these fails. */
  lemma NextFrameTable(stream: Bytes, capacity: nat)
    ensures |stream| < 2 ==> NextFrame(stream, capacity) == Err(if stream == [] then Eof else UnexpectedEof)
    ensures |stream| >= 2 ==>
      var size: nat := 256 * (stream[0] as int) + stream[1] as int + 1;
      NextFrame(stream, capacity) ==
        if capacity < size then Err(BufferTooSmall)
        else if |stream| == 2 then Err(Eof)
        else if |stream| < 2 + size then Err(UnexpectedEof)
        else Ok(stream[2..2 + size])
  {
    hide Number, BigEndian;
    if |stream| >= 2 {
      TwoBytes(stream[..2]);
    }
  }

  /** The frames of a stream and how reading ends. */
  function Split(stream: Bytes): (r: (seq<Bytes>, ReadError))
    ensures FrameSizesOk(r.0)
    decreases |stream|
  {
    match NextFrame(stream, MAX_PAYLOAD)
    case Err(e) => ([], e)
    case Ok(payload) =>
      var (rest, e) := Split(stream[2 + |payload|..]);
      ([payload] + rest, e)
  }

  /** What was received, and the rest of the stream: nothing more behind a read that fails. */
  lemma SplitEnds(received: seq<Bytes>, rest: Bytes)
    requires NextFrame(rest, MAX_PAYLOAD).Err?
    ensures (received + Split(rest).0, Split(rest).1) == (received, NextFrame(rest, MAX_PAYLOAD).error)
  {
    hide NextFrame;
    assert received + [] == received;
  }

  /** One more payload in front of what the rest gives. */
  lemma SplitGoesOn(received: seq<Bytes>, rest: Bytes)
    requires NextFrame(rest, MAX_PAYLOAD).Ok?
    ensures var payload := NextFrame(rest, MAX_PAYLOAD).value;
      var behind := Split(rest[2 + |payload|..]);
      (received + Split(rest).0, Split(rest).1) == (received + [payload] + behind.0, behind.1)
  {
    hide NextFrame;
    var payload := NextFrame(rest, MAX_PAYLOAD).value;
    var behind := Split(rest[2 + |payload|..]);
    assert received + ([payload] + behind.0) == received + [payload] + behind.0;
  }

  /** A frame in front of anything is the next frame. */
  lemma FrameIsNext(payload: Bytes, rest: Bytes)
    requires FrameSizeOk(|payload|)
    ensures NextFrame(Frame(payload) + rest, MAX_PAYLOAD) == Ok(payload)
    ensures (Frame(payload) + rest)[2 + |payload|..] == rest
  {
    hide BigEndian, Number;
    Widths();
    NumberOfBigEndian(2, |payload| - 1);
    var stream := Frame(payload) + rest;
    assert stream[..2] == BigEndian(2, |payload| - 1);
    assert stream[2..2 + |payload|] == payload;
  }

  /** A next frame, framed again, is what the stream starts with. */
  lemma NextIsFrame(stream: Bytes)
    requires NextFrame(stream, MAX_PAYLOAD).Ok?
    ensures var payload := NextFrame(stream, MAX_PAYLOAD).value;
      Frame(payload) + stream[2 + |payload|..] == stream
  {
    BigEndianOfNumber(stream[..2]);
  }

  /** Framed payloads in front of anything come out one by one, in order, and leave the rest. */
  lemma {:induction false} SplitOfFrames(payloads: seq<Bytes>, rest: Bytes)
    requires FrameSizesOk(payloads)
    ensures Split(Frames(payloads) + rest) == (payloads + Split(rest).0, Split(rest).1)
    decreases |payloads|
  {
    hide Frame, NextFrame;
    if payloads == [] {
      assert Frames(payloads) + rest == rest;
      assert payloads + Split(rest).0 == Split(rest).0;
    } else {
      var tail := Frames(payloads[1..]) + rest;
      assert Frames(payloads) + rest == Frame(payloads[0]) + tail;
      FrameIsNext(payloads[0], tail);
      SplitOfFrames(payloads[1..], rest);
      assert payloads + Split(rest).0 == [payloads[0]] + (payloads[1..] + Split(rest).0);
    }
  }

  lemma {:induction false} FramesOfSplit(stream: Bytes)
    requires Split(stream).1 == Eof
    ensures Frames(Split(stream).0) <= stream
    ensures |stream| <= |Frames(Split(stream).0)| + 2
    decreases |stream|
  {
    if NextFrame(stream, MAX_PAYLOAD).Ok? {
      var payload := NextFrame(stream, MAX_PAYLOAD).value;
      NextIsFrame(stream);
      FramesOfSplit(stream[2 + |payload|..]);
      assert Split(stream).0[1..] == Split(stream[2 + |payload|..]).0;
    }
  }

  /** Reading ends cleanly after exactly these payloads if and only if the stream is their frames, or their frames
      and a size with nothing behind it: the server does not tell that last cut from a proper end. */
  lemma SplitIff(stream: Bytes, payloads: seq<Bytes>)
    requires FrameSizesOk(payloads)
    ensures Split(stream) == (payloads, Eof)
      <==> Frames(payloads) <= stream && (|stream| == |Frames(payloads)| || |stream| == |Frames(payloads)| + 2)
  {
    hide NextFrame, Frame, Frames, Split;
    if Split(stream) == (payloads, Eof) {
      CleanEndIsFrames(stream, payloads);
    }
    if Frames(payloads) <= stream && (|stream| == |Frames(payloads)| || |stream| == |Frames(payloads)| + 2) {
      FramesEndCleanly(stream, payloads);
    }
  }

  lemma CleanEndIsFrames(stream: Bytes, payloads: seq<Bytes>)
    requires FrameSizesOk(payloads) && Split(stream) == (payloads, Eof)
    ensures Frames(payloads) <= stream && (|stream| == |Frames(payloads)| || |stream| == |Frames(payloads)| + 2)
  {
    hide NextFrame, Frame, Frames, Split;
    FramesOfSplit(stream);
    if |stream| == |Frames(payloads)| + 1 {
      LoneByte(stream, payloads);
    }
  }

  lemma FramesEndCleanly(stream: Bytes, payloads: seq<Bytes>)
    requires FrameSizesOk(payloads) && Frames(payloads) <= stream
    requires |stream| == |Frames(payloads)| || |stream| == |Frames(payloads)| + 2
    ensures Split(stream) == (payloads, Eof)
  {
    hide NextFrame, Frame, Frames, Split;
    var rest := stream[|Frames(payloads)|..];
    assert stream == Frames(payloads) + rest;
    SplitOfFrames(payloads, rest);
    BareSize(rest);
    assert payloads + [] == payloads;
  }

  lemma BareSize(rest: Bytes)
    requires |rest| == 0 || |rest| == 2
    ensures Split(rest) == ([], Eof)
  {
    if |rest| == 2 {
      BigEndianOfNumber(rest[..2]);
      Widths();
    }
  }

  lemma LoneByte(stream: Bytes, payloads: seq<Bytes>)
    requires FrameSizesOk(payloads) && Frames(payloads) <= stream && |stream| == |Frames(payloads)| + 1
    ensures Split(stream).1 != Eof
  {
    var rest := stream[|Frames(payloads)|..];
    assert stream == Frames(payloads) + rest;
    SplitOfFrames(payloads, rest);
  }

  /** A stream that is cut anywhere delivers whole payloads from the front and nothing else. */
  lemma {:induction false} CutStreamIsPrefix(payloads: seq<Bytes>, cut: nat)
    requires FrameSizesOk(payloads) && cut <= |Frames(payloads)|
    ensures Split(Frames(payloads)[..cut]).0 <= payloads
    decreases |payloads|
  {
    if payloads != [] {
      var frame, rest := Frame(payloads[0]), Frames(payloads[1..]);
      var stream := Frames(payloads)[..cut];
      if |frame| <= cut {
        assert stream == frame + rest[..cut - |frame|];
        FrameIsNext(payloads[0], rest[..cut - |frame|]);
        CutStreamIsPrefix(payloads[1..], cut - |frame|);
      } else {
        CutFrame(payloads[0], cut);
        assert stream == frame[..cut];
      }
    }
  }

  lemma CutFrame(payload: Bytes, cut: nat)
    requires FrameSizeOk(|payload|) && cut < |Frame(payload)|
    ensures NextFrame(Frame(payload)[..cut], MAX_PAYLOAD).Err?
  {
    Widths();
    NumberOfBigEndian(2, |payload| - 1);
    var stream := Frame(payload)[..cut];
    if |stream| >= 2 {
      assert stream[..2] == BigEndian(2, |payload| - 1);
    }
  }

  // ---------------------------------------------------------------- streams and the two loops

  /** What was written to a connection so far. */
  class Connection {
    var sent: Bytes

    constructor ()
      ensures sent == []
    {
      sent := [];
    }

    /** `write_frame` of the client and `WriteFrame` of the server: the size, then the payload. A payload of a wrong
        size sends nothing; when the connection fails it may have taken any number of bytes of the frame. */
    method WriteFrame(payload: Bytes, fails: bool, taken: nat) returns (ok: bool)
      modifies this
      ensures ok <==> FrameSizeOk(|payload|) && !fails
      ensures ok ==> sent == old(sent) + Frame(payload)
      ensures !FrameSizeOk(|payload|) ==> sent == old(sent)
      ensures FrameSizeOk(|payload|) && fails ==> sent == old(sent) + Taken(payload, taken)
    {
      if !FrameSizeOk(|payload|) {
        return false;
      }
      var size := BigEndian(2, |payload| - 1);
      if fails && taken < 2 {
        sent := sent + size[..taken];
        return false;
      }
      sent := sent + size;
      if fails {
        sent := sent + payload[..Min(taken - 2, |payload|)];
        return false;
      }
      sent := sent + payload;
      ok := true;
    }
  }

  /** The receiving end: the bytes arrive in order, in pieces of any size. */
  class Incoming {
    const stream: Bytes
    var pos: nat

    ghost predicate Valid()
      reads this
    {
      pos <= |stream|
    }

    ghost function Rest(): Bytes
      reads this
      requires Valid()
    {
      stream[pos..]
    }

    constructor (stream: Bytes)
      ensures Valid() && this.stream == stream && Rest() == stream
    {
      this.stream := stream;
      pos := 0;
    }

    /** One `Read`: at least one byte and at most what was asked for and has arrived; 0 at the end. */
    method Read(buffer: array<byte>, from: nat, to: nat, arrived: nat) returns (n: nat)
      requires Valid() && from < to <= buffer.Length
      modifies this`pos, buffer
      ensures Valid() && n <= to - from && (n == 0 <==> old(Rest()) == [])
      ensures pos == old(pos) + n
      ensures buffer[..] == Splice(old(buffer[..]), from, stream[old(pos)..pos])
    {
      n := Min(Min(to - from, |stream| - pos), Max(arrived, 1));
      forall i | 0 <= i < n {
        buffer[from + i] := stream[pos + i];
      }
      pos := pos + n;
    }

    /** `io.ReadFull`: the first `length` bytes of the buffer are filled, however the bytes arrive. */
    method ReadFull(buffer: array<byte>, length: nat, arrivals: nat -> nat) returns (r: Result<(), ReadError>)
      requires Valid() && 0 < length <= buffer.Length
      modifies this`pos, buffer
      ensures Valid()
      ensures r == if length <= |old(Rest())| then Ok(()) else Err(if old(Rest()) == [] then Eof else UnexpectedEof)
      ensures r.Ok? ==> pos == old(pos) + length && buffer[..length] == old(Rest())[..length]
      ensures r.Err? ==> Rest() == []
    {
      var filled := 0;
      while filled < length
        invariant Valid() && filled <= length && pos == old(pos) + filled
        invariant buffer[..filled] == stream[old(pos)..pos]
        decreases length - filled
      {
        ghost var was, start := buffer[..], pos;
        var n := Read(buffer, filled, length, arrivals(filled));
        if n == 0 {
          return Err(if filled == 0 then Eof else UnexpectedEof);
        }
        assert buffer[..filled] == was[..filled] && buffer[filled..filled + n] == stream[start..pos];
        assert buffer[..filled + n] == buffer[..filled] + buffer[filled..filled + n];
        filled := filled + n;
      }
      r := Ok(());
    }

    /** `ReadFrameInto` / `read_frame_into`: the payload is the front of the buffer. */
    method ReadFrameInto(buffer: array<byte>, arrivals: nat -> nat) returns (r: Result<nat, ReadError>)
      requires Valid()
      modifies this`pos, buffer
      ensures Valid()
      ensures r.Ok? == NextFrame(old(Rest()), buffer.Length).Ok?
      ensures r.Err? ==> r.error == NextFrame(old(Rest()), buffer.Length).error
      ensures r.Ok? ==> r.value <= buffer.Length && NextFrame(old(Rest()), buffer.Length) == Ok(buffer[..r.value])
      ensures r.Ok? ==> Rest() == old(Rest())[2 + r.value..]
    {
      ghost var rest := Rest();
      var header := new byte[2](_ => 0);
      var got := ReadFull(header, 2, arrivals);
      if got.Err? {
        return Err(got.error);
      }
      assert header[..] == header[..2] == rest[..2];
      BigEndianOfNumber(header[..]);
      Widths();
      var size := Number(header[..]) + 1;
      if buffer.Length < size {
        return Err(BufferTooSmall);
      }
      assert Rest() == rest[2..];
      got := ReadFull(buffer, size, arrivals);
      if got.Err? {
        return Err(got.error);
      }
      assert rest[2..][..size] == rest[2..2 + size];
      r := Ok(size);
    }

    /** The loop of `Run`: one buffer for all frames; each payload is handled, and its reply written to `out`, before
        the next frame is read. It ends with the stream, with a payload the handler refuses, with a reply that
        cannot be written, or when `Close` took the connection away after `closing` payloads. */
    method ReceiveAll(
      arrivals: nat -> nat, handler: Bytes -> Handled, out: Connection, closing: nat, failing: nat, taken: nat)
      returns (payloads: seq<Bytes>, end: RunEnd)
      requires Valid() && pos == 0
      modifies this`pos, out
      ensures payloads <= Split(stream).0
      ensures end.Ended? ==> (payloads, end.error) == Split(stream)
      ensures end == Closed ==> |payloads| == closing
      ensures end == HandlerFailed ==> payloads != [] && handler(payloads[|payloads| - 1]).Refused?
      ensures end == ReplyFailed ==>
        payloads != [] && ReplyFails(handler(payloads[|payloads| - 1]), |payloads| - 1 == failing)
      ensures var answered := if end.Ended? || end == Closed then payloads else payloads[..|payloads| - 1];
        && (forall i :: 0 <= i < |answered| ==> Answered(handler(answered[i])) && (i == failing ==> handler(answered[i]).Quiet?))
        && out.sent == old(out.sent) + ReplyFrames(handler, answered)
             + if end == ReplyFailed then FailedReply(handler(payloads[|payloads| - 1]), taken) else []
    {
      hide NextFrame, Split, FrameSizesOk, Frame, ReplyFrames, Taken;
      var buffer := new byte[MAX_PAYLOAD](_ => 0);
      payloads := [];
      assert stream[0..] == stream && [] + Split(stream).0 == Split(stream).0;
      NoReplies(handler);
      while true
        invariant Valid()
        invariant Split(stream) == (payloads + Split(Rest()).0, Split(Rest()).1)
        invariant forall i :: 0 <= i < |payloads| ==>
          Answered(handler(payloads[i])) && (i == failing ==> handler(payloads[i]).Quiet?)
        invariant out.sent == old(out.sent) + ReplyFrames(handler, payloads)
        decreases |stream| - pos
      {
        if |payloads| == closing {
          return payloads, Closed;
        }
        ghost var rest := Rest();
        var got := ReadFrameInto(buffer, arrivals);
        if got.Err? {
          SplitEnds(payloads, rest);
          return payloads, Ended(got.error);
        }
        var payload := buffer[..got.value];
        SplitGoesOn(payloads, rest);
        ghost var answered := payloads;
        payloads := payloads + [payload];
        assert payloads[..|payloads| - 1] == answered;
        OneMoreReply(handler, answered, payload);
        match handler(payload)
        case Refused => return payloads, HandlerFailed;
        case Quiet =>
        case Reply(reply) =>
          var written := out.WriteFrame(reply, |payloads| - 1 == failing, taken);
          if !written {
            return payloads, ReplyFailed;
          }
      }
    }
  }

  // ---------------------------------------------------------------- handling

  /** What the handler makes of a payload: an error, no reply, or one. */
  datatype Handled = Refused | Quiet | Reply(payload: Bytes)

  datatype RunEnd = Ended(error: ReadError) | Closed | HandlerFailed | ReplyFailed

  /** The loop goes on behind this outcome. */
  predicate Answered(h: Handled) {
    h.Quiet? || (h.Reply? && FrameSizeOk(|h.payload|))
  }

  predicate ReplyFails(h: Handled, broken: bool) {
    h.Reply? && (!FrameSizeOk(|h.payload|) || broken)
  }

  /** What reaches the connection of a reply that cannot be written. */
  function FailedReply(h: Handled, taken: nat): Bytes {
    if h.Reply? && FrameSizeOk(|h.payload|) then Taken(h.payload, taken) else []
  }

  function ReplyFrame(h: Handled): Bytes {
    if h.Reply? && FrameSizeOk(|h.payload|) then Frame(h.payload) else []
  }

  /** The frames of the replies, in the order of their payloads. */
  function ReplyFrames(handler: Bytes -> Handled, payloads: seq<Bytes>): Bytes {
    if payloads == [] then []
    else ReplyFrames(handler, payloads[..|payloads| - 1]) + ReplyFrame(handler(payloads[|payloads| - 1]))
  }

  lemma NoReplies(handler: Bytes -> Handled)
    ensures ReplyFrames(handler, []) == []
  {
  }

  lemma OneMoreReply(handler: Bytes -> Handled, payloads: seq<Bytes>, payload: Bytes)
    ensures ReplyFrames(handler, payloads + [payload]) == ReplyFrames(handler, payloads) + ReplyFrame(handler(payload))
  {
    assert (payloads + [payload])[..|payloads|] == payloads;
  }

  // ---------------------------------------------------------------- end to end

  function Payloads(client: Zstd, requests: seq<Request>): (ps: seq<Bytes>)
    ensures |ps| == |requests| && forall i :: 0 <= i < |requests| ==> ps[i] == RequestBytes(client, requests[i])
  {
    seq(|requests|, i requires 0 <= i < |requests| => RequestBytes(client, requests[i]))
  }

  /** Every encoded request fits a frame, with room to spare. */
  lemma RequestFitsFrame(client: Zstd, r: Request)
    requires Sendable(r)
    ensures |RequestBytes(client, r)| <= HEADER_SIZE + WRITE_BODY_HEADER + MAX_RAW < MAX_PAYLOAD
    ensures FrameSizeOk(|RequestBytes(client, r)|)
  {
    hide BigEndian, Encoded;
    EncodedIsShort(client, r.write.data);
  }

  lemma RequestsFitFrames(client: Zstd, requests: seq<Request>)
    requires forall i :: 0 <= i < |requests| ==> Sendable(requests[i])
    ensures FrameSizesOk(Payloads(client, requests))
  {
    forall i | 0 <= i < |requests| ensures FrameSizeOk(|Payloads(client, requests)[i]|) {
      RequestFitsFrame(client, requests[i]);
    }
  }

  lemma FramesAppend(payloads: seq<Bytes>, payload: Bytes)
    requires FrameSizesOk(payloads) && FrameSizeOk(|payload|)
    ensures Frames(payloads + [payload]) == Frames(payloads) + Frame(payload)
    decreases |payloads|
  {
    if payloads == [] {
      assert payloads + [payload] == [payload] && [payload][1..] == [];
    } else {
      assert (payloads + [payload])[1..] == payloads[1..] + [payload];
      FramesAppend(payloads[1..], payload);
    }
  }

  lemma NothingSent(client: Zstd, requests: seq<Request>)
    ensures FrameSizesOk(Payloads(client, requests[..0])) && Frames(Payloads(client, requests[..0])) == []
  {
  }

  lemma OneMoreSent(client: Zstd, requests: seq<Request>, n: nat)
    requires n < |requests| && Sendable(requests[n]) && FrameSizesOk(Payloads(client, requests[..n]))
    ensures FrameSizeOk(|RequestBytes(client, requests[n])|) && FrameSizesOk(Payloads(client, requests[..n + 1]))
    ensures Frames(Payloads(client, requests[..n + 1]))
      == Frames(Payloads(client, requests[..n])) + Frame(RequestBytes(client, requests[n]))
  {
    hide RequestBytes;
    RequestFitsFrame(client, requests[n]);
    FramesAppend(Payloads(client, requests[..n]), RequestBytes(client, requests[n]));
    assert Payloads(client, requests[..n + 1]) == Payloads(client, requests[..n]) + [RequestBytes(client, requests[n])];
  }

  /** The client's side: every request is encoded and framed; the first one it may not send stops it, and so does the
      connection when it fails at request `failing`, having taken `taken` bytes of its frame. */
  method SendAll(client: Zstd, requests: seq<Request>, connection: Connection, failing: nat, taken: nat)
    returns (sent: nat)
    requires forall i :: 0 <= i < |requests| ==> RequestFits(requests[i])
    modifies connection
    ensures sent <= |requests| && forall i :: 0 <= i < sent ==> Sendable(requests[i])
    ensures sent < |requests| ==> !Sendable(requests[sent]) || sent == failing
    ensures sent <= failing && FrameSizesOk(Payloads(client, requests[..sent]))
    ensures sent < |requests| && Sendable(requests[sent]) ==>
      && FrameSizeOk(|RequestBytes(client, requests[sent])|)
      && connection.sent == old(connection.sent) + Frames(Payloads(client, requests[..sent]))
           + Taken(RequestBytes(client, requests[sent]), taken)
    ensures sent == |requests| || !Sendable(requests[sent]) ==>
      connection.sent == old(connection.sent) + Frames(Payloads(client, requests[..sent]))
  {
    hide RequestBytes, Payloads, Frames, Frame, Taken, FrameSizesOk, LengthOk;
    NothingSent(client, requests);
    sent := 0;
    while sent < |requests|
      invariant sent <= |requests| && forall i :: 0 <= i < sent ==> Sendable(requests[i])
      invariant sent <= failing
      invariant FrameSizesOk(Payloads(client, requests[..sent]))
      invariant connection.sent == old(connection.sent) + Frames(Payloads(client, requests[..sent]))
    {
      var encoded := EncodeRequest(client, requests[sent]);
      if encoded.Err? {
        return;
      }
      OneMoreSent(client, requests, sent);
      var written := connection.WriteFrame(encoded.value[..], sent == failing, taken);
      if !written {
        return;
      }
      sent := sent + 1;
    }
  }

  /** The requests a stream delivers to the server, as far as its payloads are writes. */
  ghost predicate Delivers(server: Zstd, stream: Bytes, requests: seq<Request>) {
    && |Split(stream).0| == |requests|
    && forall i :: 0 <= i < |requests| ==> ParseRequest(server, Split(stream).0[i]) == Ok(requests[i])
  }

  /** The whole path: the stream of any list of requests the client may send is taken apart by the server into the
      same requests, in the same order, and ends cleanly. */
  lemma WritePathRoundTrip(client: Zstd, server: Zstd, requests: seq<Request>)
    requires Undoes(server, client) && forall i :: 0 <= i < |requests| ==> Sendable(requests[i])
    ensures FrameSizesOk(Payloads(client, requests))
    ensures Delivers(server, Frames(Payloads(client, requests)), requests)
    ensures Split(Frames(Payloads(client, requests))).1 == Eof
  {
    hide ParseRequest, RequestBytes, NextFrame, Frame;
    RequestsFitFrames(client, requests);
    var payloads := Payloads(client, requests);
    SplitIff(Frames(payloads), payloads);
    forall i | 0 <= i < |requests| ensures ParseRequest(server, payloads[i]) == Ok(requests[i]) {
      RequestRoundTrip(client, server, requests[i]);
    }
  }

  /** What reaches the server when the connection fails while a request is written: the requests before it, and that
      one only if its whole frame was taken. */
  lemma BrokenSendDelivers(client: Zstd, server: Zstd, requests: seq<Request>, sent: nat, taken: nat)
    requires Undoes(server, client) && sent < |requests| && forall i :: 0 <= i <= sent ==> Sendable(requests[i])
    ensures FrameSizesOk(Payloads(client, requests[..sent])) && FrameSizeOk(|RequestBytes(client, requests[sent])|)
    ensures var whole := taken >= |Frame(RequestBytes(client, requests[sent]))|;
      Delivers(server, Frames(Payloads(client, requests[..sent])) + Taken(RequestBytes(client, requests[sent]), taken),
        requests[..if whole then sent + 1 else sent])
  {
    hide ParseRequest, RequestBytes, NextFrame, Frame, Payloads, Frames, Split;
    RequestsFitFrames(client, requests[..sent]);
    OneMoreSent(client, requests, sent);
    var payload := RequestBytes(client, requests[sent]);
    if taken >= |Frame(payload)| {
      assert Taken(payload, taken) == Frame(payload);
      WritePathRoundTrip(client, server, requests[..sent + 1]);
    } else {
      WritePathRoundTrip(client, server, requests[..sent]);
      PartOfFrame(Payloads(client, requests[..sent]), payload, taken);
    }
  }

  /** A part of one more frame adds no payload. */
  lemma PartOfFrame(payloads: seq<Bytes>, payload: Bytes, taken: nat)
    requires FrameSizesOk(payloads) && FrameSizeOk(|payload|) && taken < |Frame(payload)|
    ensures Split(Frames(payloads) + Taken(payload, taken)).0 == payloads == Split(Frames(payloads)).0
  {
    hide NextFrame, Frame;
    CutFrame(payload, taken);
    SplitOfFrames(payloads, Taken(payload, taken));
    SplitOfFrames(payloads, []);
    assert Frames(payloads) + [] == Frames(payloads) && payloads + [] == payloads;
    BareSize([]);
  }

  /** A connection lost at any byte delivers the first requests, whole and unchanged, and no others. */
  lemma CutPathDeliversPrefix(client: Zstd, server: Zstd, requests: seq<Request>, cut: nat)
    requires Undoes(server, client) && forall i :: 0 <= i < |requests| ==> Sendable(requests[i])
    requires FrameSizesOk(Payloads(client, requests)) && cut <= |Frames(Payloads(client, requests))|
    ensures var n := |Split(Frames(Payloads(client, requests))[..cut]).0|;
      n <= |requests| && Delivers(server, Frames(Payloads(client, requests))[..cut], requests[..n])
  {
    hide ParseRequest, RequestBytes, NextFrame, Frame;
    var payloads := Payloads(client, requests);
    CutStreamIsPrefix(payloads, cut);
    var got := Split(Frames(payloads)[..cut]).0;
    forall i | 0 <= i < |got| ensures ParseRequest(server, got[i]) == Ok(requests[i]) {
      assert got[i] == payloads[i];
      RequestRoundTrip(client, server, requests[i]);
    }
  }
}
