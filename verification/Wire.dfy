/**
  The fixed part of every message (server/internal/proto/header.go, windows/network-core/src/protocol_client.rs):
  big-endian numbers and the 24-byte header that both sides write and read.
*/
module Wire {
  import opened Common

  type Bytes = seq<byte>

  const HEADER_SIZE: nat := 24
  const PROTOCOL_VERSION: nat := 2
  const FLAG_RESPONSE: nat := 1
  const FLAG_NOTICE: nat := 2

  // ---------------------------------------------------------------- big-endian numbers

  function Pow256(n: nat): nat { if n == 0 then 1 else 256 * Pow256(n - 1) }

  /** The low `width` bytes of `x`, most significant first. */
  function BigEndian(width: nat, x: nat): (s: Bytes)
    ensures |s| == width
  {
    if width == 0 then [] else BigEndian(width - 1, x / 256) + [x % 256]
  }

  function Number(s: Bytes): nat {
    if s == [] then 0 else 256 * Number(s[..|s| - 1]) + s[|s| - 1]
  }

  lemma {:induction false} NumberOfBigEndian(width: nat, x: nat)
    requires x < Pow256(width)
    ensures Number(BigEndian(width, x)) == x
  {
    if width > 0 {
      NumberOfBigEndian(width - 1, x / 256);
      assert BigEndian(width, x)[..width - 1] == BigEndian(width - 1, x / 256);
    }
  }

  lemma {:induction false} BigEndianOfNumber(s: Bytes)
    ensures Number(s) < Pow256(|s|) && BigEndian(|s|, Number(s)) == s
  {
    if s != [] {
      var n := |s| - 1;
      BigEndianOfNumber(s[..n]);
      assert s == s[..n] + [s[n]];
    }
  }

  /** The first byte is the most significant one. */
  lemma {:induction false} MostSignificantFirst(x: byte, s: Bytes)
    ensures Number([x] + s) == x * Pow256(|s|) + Number(s)
    decreases |s|
  {
    var all := [x] + s;
    if s == [] {
      assert all[..0] == [];
    } else {
      var n := |s| - 1;
      assert all[..n + 1] == [x] + s[..n];
      MostSignificantFirst(x, s[..n]);
    }
  }

  /** Two bytes, as a frame size has. */
  lemma TwoBytes(s: Bytes)
    requires |s| == 2
    ensures Number(s) == 256 * (s[0] as int) + s[1] as int
  {
    assert s == [s[0]] + [s[1]];
    MostSignificantFirst(s[0], [s[1]]);
    ByteNumber([s[1]]);
    Widths();
  }

  lemma Widths()
    ensures Pow256(1) == 256 && Pow256(2) == 0x1_0000 && Pow256(4) == U32_LIMIT && Pow256(8) == U64_LIMIT
  {
    assert Pow256(4) == 256 * Pow256(3) && Pow256(3) == 256 * Pow256(2);
    assert Pow256(8) == 256 * Pow256(7) && Pow256(7) == 256 * Pow256(6);
    assert Pow256(6) == 256 * Pow256(5) && Pow256(5) == 256 * Pow256(4);
  }

  /** `PutUint16` and its like: the number goes to its place in the buffer, in place. */
  method PutNumber(buffer: array<byte>, at: nat, width: nat, x: nat)
    requires at + width <= buffer.Length
    modifies buffer
    ensures buffer[..] == Splice(old(buffer[..]), at, BigEndian(width, x))
  {
    var digits := BigEndian(width, x);
    forall i | 0 <= i < width {
      buffer[at + i] := digits[i];
    }
  }

  /** The next field of a buffer whose front is filled: it goes behind the front, and the rest stays. */
  method PutNext(buffer: array<byte>, ghost front: Bytes, at: nat, width: nat, x: nat)
    requires at + width <= buffer.Length && |front| == at && front <= buffer[..]
    modifies buffer
    ensures front + BigEndian(width, x) <= buffer[..]
    ensures forall i :: at + width <= i < buffer.Length ==> buffer[i] == old(buffer[i])
  {
    hide BigEndian;
    PutNumber(buffer, at, width, x);
  }

  /** `copy(buffer[at:], s)`. */
  method PutBytes(buffer: array<byte>, at: nat, s: Bytes)
    requires at + |s| <= buffer.Length
    modifies buffer
    ensures buffer[..] == Splice(old(buffer[..]), at, s)
  {
    forall i | 0 <= i < |s| {
      buffer[at + i] := s[i];
    }
  }

  // ---------------------------------------------------------------- the header

  datatype Header = Header(
    version: nat, headerLen: nat, op: nat, flags: nat, status: nat, reserved: nat, requestId: nat, sessionId: nat)

  /** Every field fits its type. */
  predicate HeaderFits(h: Header) {
    && h.version < 256 && h.headerLen < 256 && h.op < 256 && h.flags < 256
    && h.status < 0x1_0000 && h.reserved < 0x1_0000 && h.requestId < U64_LIMIT && h.sessionId < U64_LIMIT
  }

  /** The layout: four single bytes, two 16-bit and two 64-bit numbers. */
  function HeaderBytes(h: Header): (s: Bytes)
    ensures |s| == HEADER_SIZE
  {
    BigEndian(1, h.version) + BigEndian(1, h.headerLen) + BigEndian(1, h.op) + BigEndian(1, h.flags)
    + BigEndian(2, h.status) + BigEndian(2, h.reserved) + BigEndian(8, h.requestId) + BigEndian(8, h.sessionId)
  }

  datatype HeaderError = PayloadTooSmall | ProtocolVersion | HeaderLength | ReservedNonZero | InvalidFlags
    | RequestStatusNonZero | RequestIdZero

  /** `ParseHeader`. */
  function ParseHeader(payload: Bytes): Result<Header, HeaderError> {
    if |payload| < HEADER_SIZE then Err(PayloadTooSmall)
    else Ok(Header(
      payload[0], payload[1], payload[2], payload[3], Number(payload[4..6]), Number(payload[6..8]),
      Number(payload[8..16]), Number(payload[16..24])))
  }

  lemma ByteNumber(s: Bytes)
    requires |s| == 1
    ensures Number(s) == s[0]
  {
    assert s[..0] == [];
  }

  /** Where each field of a header lies. */
  lemma HeaderLayout(h: Header)
    requires HeaderFits(h)
    ensures var p := HeaderBytes(h);
      && p[0] == h.version && p[1] == h.headerLen && p[2] == h.op && p[3] == h.flags
      && Number(p[4..6]) == h.status && Number(p[6..8]) == h.reserved
      && Number(p[8..16]) == h.requestId && Number(p[16..24]) == h.sessionId
  {
    Widths();
    HeaderFields(h);
    hide BigEndian, Number, HeaderBytes;
    OneByte(h.version);
    OneByte(h.headerLen);
    OneByte(h.op);
    OneByte(h.flags);
    NumberOfBigEndian(2, h.status);
    NumberOfBigEndian(2, h.reserved);
    NumberOfBigEndian(8, h.requestId);
    NumberOfBigEndian(8, h.sessionId);
  }

  /** The pieces a header is put together from. */
  lemma HeaderFields(h: Header)
    ensures var p := HeaderBytes(h);
      && [p[0]] == BigEndian(1, h.version) && [p[1]] == BigEndian(1, h.headerLen)
      && [p[2]] == BigEndian(1, h.op) && [p[3]] == BigEndian(1, h.flags)
      && p[4..6] == BigEndian(2, h.status) && p[6..8] == BigEndian(2, h.reserved)
      && p[8..16] == BigEndian(8, h.requestId) && p[16..24] == BigEndian(8, h.sessionId)
  {
    hide BigEndian;
    var codes := BigEndian(1, h.version) + BigEndian(1, h.headerLen) + BigEndian(1, h.op) + BigEndian(1, h.flags);
    var status, reserved := BigEndian(2, h.status), BigEndian(2, h.reserved);
    var request, session := BigEndian(8, h.requestId), BigEndian(8, h.sessionId);
    assert HeaderBytes(h) == codes + status + (reserved + request + session);
    Middle(codes, status, reserved + request + session);
    assert HeaderBytes(h) == (codes + status) + reserved + (request + session);
    Middle(codes + status, reserved, request + session);
    assert HeaderBytes(h) == (codes + status + reserved) + request + session;
    Middle(codes + status + reserved, request, session);
  }

  lemma Middle(x: Bytes, y: Bytes, z: Bytes)
    ensures (x + y + z)[|x|..|x| + |y|] == y
  {
  }

  lemma OneByte(x: nat)
    requires x < 256
    ensures BigEndian(1, x) == [x]
  {
  }

  /** Parsing undoes encoding, whatever body follows. */
  lemma ParseOfHeader(h: Header, body: Bytes)
    requires HeaderFits(h)
    ensures ParseHeader(HeaderBytes(h) + body) == Ok(h)
  {
    hide BigEndian, Number;
    Widths();
    var p := HeaderBytes(h) + body;
    assert p[0..1] == BigEndian(1, h.version) && p[1..2] == BigEndian(1, h.headerLen);
    assert p[2..3] == BigEndian(1, h.op) && p[3..4] == BigEndian(1, h.flags);
    ByteNumber(p[0..1]);
    ByteNumber(p[1..2]);
    ByteNumber(p[2..3]);
    ByteNumber(p[3..4]);
    NumberOfBigEndian(1, h.version);
    NumberOfBigEndian(1, h.headerLen);
    NumberOfBigEndian(1, h.op);
    NumberOfBigEndian(1, h.flags);
    assert p[4..6] == BigEndian(2, h.status) && p[6..8] == BigEndian(2, h.reserved);
    NumberOfBigEndian(2, h.status);
    NumberOfBigEndian(2, h.reserved);
    assert p[8..16] == BigEndian(8, h.requestId) && p[16..24] == BigEndian(8, h.sessionId);
    NumberOfBigEndian(8, h.requestId);
    NumberOfBigEndian(8, h.sessionId);
  }

  /** Encoding undoes parsing: a payload has no header bytes that parsing does not show. */
  lemma HeaderOfParse(payload: Bytes)
    requires |payload| >= HEADER_SIZE
    ensures var h := ParseHeader(payload).value;
      HeaderFits(h) && HeaderBytes(h) + payload[HEADER_SIZE..] == payload
  {
    hide BigEndian, Number;
    Widths();
    var p := payload;
    forall i | 0 <= i < 4 ensures BigEndian(1, p[i]) == p[i..i + 1] {
      ByteNumber(p[i..i + 1]);
      BigEndianOfNumber(p[i..i + 1]);
    }
    BigEndianOfNumber(p[4..6]);
    BigEndianOfNumber(p[6..8]);
    BigEndianOfNumber(p[8..16]);
    BigEndianOfNumber(p[16..24]);
    assert p == p[0..1] + p[1..2] + p[2..3] + p[3..4] + p[4..6] + p[6..8] + p[8..16] + p[16..24] + p[24..];
  }

  /** A bit beyond the two lowest, the known flags, is set. */
  predicate BitsBeyondFlags(flags: nat) { flags / (FLAG_RESPONSE + FLAG_NOTICE + 1) != 0 }

  /** `ValidateRequestHeader`. */
  function ValidateRequestHeader(h: Header): Option<HeaderError> {
    if h.version != PROTOCOL_VERSION then Some(ProtocolVersion)
    else if h.headerLen != HEADER_SIZE then Some(HeaderLength)
    else if h.reserved != 0 then Some(ReservedNonZero)
    else if BitsBeyondFlags(h.flags) then Some(InvalidFlags)
    else if h.flags != 0 then Some(InvalidFlags)
    else if h.status != 0 then Some(RequestStatusNonZero)
    else if h.requestId == 0 then Some(RequestIdZero)
    else None
  }

  /** The header check reports the first field that is wrong, in this order; the flags known to the protocol are as
      wrong on a request as the others. */
  lemma HeaderRefusedFor(h: Header)
    ensures ValidateRequestHeader(h) ==
      if h.version != 2 then Some(ProtocolVersion)
      else if h.headerLen != 24 then Some(HeaderLength)
      else if h.reserved != 0 then Some(ReservedNonZero)
      else if h.flags != 0 then Some(InvalidFlags)
      else if h.status != 0 then Some(RequestStatusNonZero)
      else if h.requestId == 0 then Some(RequestIdZero)
      else None
  {
  }

  /** `ProtocolHeader::new_request`. */
  function NewRequest(op: nat, requestId: nat, sessionId: nat): Option<Header> {
    if requestId == 0 then None
    else Some(Header(PROTOCOL_VERSION, HEADER_SIZE, op, 0, 0, 0, requestId, sessionId))
  }

  /** The codes of `ClientOperationCode`. */
  const CLIENT_OPS: set<nat> := {0x01, 0x02, 0x03, 0x04, 0x05, 0x06, 0x10, 0x11, 0x12}

  /** The client can make this header: its constructor takes one of its operation codes. */
  predicate ClientCanMake(h: Header) {
    h.op in CLIENT_OPS && NewRequest(h.op, h.requestId, h.sessionId) == Some(h)
  }

  /** The server's header check accepts exactly the request headers the client can make, and those with the same
      fields and an operation code the client does not have. */
  lemma AcceptedHeadersAreNewRequests(h: Header)
    ensures ClientCanMake(h) <==> ValidateRequestHeader(h).None? && h.op in CLIENT_OPS
    ensures ValidateRequestHeader(h).None? ==> forall op :: op in CLIENT_OPS ==> ClientCanMake(h.(op := op))
  {
  }

  /** `EncodeHeader`: the header goes to the front of the payload, in place. */
  method EncodeHeader(h: Header, payload: array<byte>)
    requires payload.Length >= HEADER_SIZE
    modifies payload
    ensures payload[..] == HeaderBytes(h) + old(payload[HEADER_SIZE..])
  {
    hide BigEndian;
    ghost var was := payload[..];
    ghost var front := BigEndian(1, h.version);
    PutNext(payload, [], 0, 1, h.version);
    PutNext(payload, front, 1, 1, h.headerLen);
    front := front + BigEndian(1, h.headerLen);
    PutNext(payload, front, 2, 1, h.op);
    front := front + BigEndian(1, h.op);
    PutNext(payload, front, 3, 1, h.flags);
    front := front + BigEndian(1, h.flags);
    PutNext(payload, front, 4, 2, h.status);
    front := front + BigEndian(2, h.status);
    PutNext(payload, front, 6, 2, h.reserved);
    front := front + BigEndian(2, h.reserved);
    PutNext(payload, front, 8, 8, h.requestId);
    front := front + BigEndian(8, h.requestId);
    PutNext(payload, front, 16, 8, h.sessionId);
    assert payload[HEADER_SIZE..] == was[HEADER_SIZE..];
  }

  /** `ProtocolHeader::encode`: header and body in a new buffer. */
  method Encode(h: Header, body: Bytes) returns (payload: array<byte>)
    ensures fresh(payload) && payload[..] == HeaderBytes(h) + body
  {
    payload := new byte[HEADER_SIZE + |body|](_ => 0);
    EncodeHeader(h, payload);
    PutBytes(payload, HEADER_SIZE, body);
  }
}
